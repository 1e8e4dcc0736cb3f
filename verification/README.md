# CyberSportOrg core, modelled in Dafny

CyberSportOrg is an esports organisation dashboard. Administrators and
managers keep its players, managers, teams, games and tournaments in a
relational database. The core modelled here has four parts:

- The **API routes** that list and create those entities:
  - `GET`/`POST` for `/api/players`, `/api/managers`, `/api/teams`, `/api/games` and `/api/tournaments`;
  - the admin routes `POST /api/admin/clear-data` and `POST /api/admin/seed-mock-data`.
- **Sign-in** (`src/lib/auth.ts`):
  - the credentials `authorize` check;
  - the `jwt` and `session` callbacks.
- **Display names** (`src/lib/format-name.ts`):
  - de-duplicating repeated words;
  - choosing `@username`, the name or the e-mail;
  - the avatar initial.
- The **client-side logic** of the dashboard pages, which builds the requests and updates local lists:
  - the players page, with its `cleanName`;
  - the managers page;
  - the new-team page;
  - the admin users table;
  - the admin overview page.

## How the model is organised

One module per source file, plus shared modules:

- **`Db`** (`store.dfy`) is the database.
  - It is a `class Store` with one `seq` field per table and the counter of issued ids.
  - `Valid()` states the schema's constraints:
    - unique ids, e-mails, usernames and team tags, and unique game names;
    - foreign keys;
    - one membership per (user, team).
  - Every Prisma call the routes make is a method of `Store`.
    - Each method states the new contents of every table, and that the constraints still hold.
    - Where Prisma would throw (a unique or foreign-key violation), the method refuses and writes nothing.
    - The calling route turns such a refusal into its `500` answer.
- **Routes** are module-level methods.
  - Each takes the store, the caller's session (`None` without one) and the request body (absent fields are `None`).
  - Each returns the status and JSON answer as a `Response` value.
- **Pages** are functions from their state and the user's input to the next state or to the request they send.
  - The answer of a request a page makes is a parameter.
- **Shared modules:**
  - `Wrappers`: `Option` and JavaScript truthiness of optional strings.
  - `Chars`: case folding, trimming, character stripping.
  - `WordSplit`: `split(/\s+/)` and `join(" ")`.
  - `Seqs`: `filter`, `find`, newest-first order.
  - `Schema`: rows and constraints.
  - `Forms`: checkbox toggling, `|| null`.
  - `Dedup`: the shared "keep the first word with each normalised form" loop.

Things the model treats as parameters:

- bcrypt's `hash` and `compare` are `hash: string -> string` and `verify: (plain, hash) -> bool`.
- The database error that a route catches is a `fault` parameter, or the refusal of a `Store` method.

`formatUserName` filters username-like words out of the name only when a
username is present. That branch is only reached when there is no username,
so the filter never applies. `FormatName.FormatUserName` states the resulting
behaviour.

`getUserInitial` throws when all three fields are empty; the model returns `None` in that case.

## Model

| member | source | states |
|---|---|---|
| Chars.LowerChar | src/lib/format-name.ts:13 | case folding of one character never turns whitespace into a word character or back |
| Chars.Lower | src/lib/format-name.ts:13 | `toLowerCase()`: same length, each character case-folded (ASCII Latin A-Z and basic Cyrillic only) |
| Chars.UpperChar | src/app/dashboard/teams/new/page.tsx:210 | upper-casing one character never turns whitespace into a word character or back |
| Chars.Upper | src/app/dashboard/teams/new/page.tsx:210 | `toUpperCase()`: same length, each character upper-cased (ASCII Latin a-z and basic Cyrillic only) |
| Chars.CaseRoundTrip | src/app/dashboard/teams/new/page.tsx:210 | on the letters case folding changes, upper-casing undoes lower-casing and lower-casing undoes upper-casing |
| Chars.Strip | src/lib/format-name.ts:13 | `replace(/[...]/g, "")`: no dropped character remains, none is added, never longer; `StripOne` and `StripConcat` pin it on every string |
| Chars.StripCounts | src/lib/format-name.ts:13 | every character outside the dropped set occurs as often in the result as in the input |
| Chars.StripOne | src/lib/format-name.ts:13 | a single character is deleted iff it is in the dropped set |
| Chars.StripConcat | src/lib/format-name.ts:13 | stripping works piece by piece, so the kept characters stay in their order |
| Chars.StripNothing | src/lib/format-name.ts:13 | a string holding no dropped character is left as it is |
| Chars.Trim | src/lib/format-name.ts:8 | `trim()`: never longer; the result neither starts nor ends with whitespace |
| Chars.TrimStart | src/lib/format-name.ts:8 | the result is a suffix; everything cut is whitespace |
| Chars.TrimEnd | src/lib/format-name.ts:8 | the result is a prefix; everything cut is whitespace |
| Chars.TrimUnchanged | src/lib/format-name.ts:20 | a string without edge whitespace is its own trim |
| Chars.TrimAllSpace | src/app/dashboard/players/page.tsx:129-130 | an all-whitespace string trims to empty |
| WordSplit.Words | src/lib/format-name.ts:8 | every piece is a non-empty word without whitespace; with `WordsAtSpace` and `WordsOfWord` this pins the result to the maximal non-whitespace runs |
| WordSplit.WordsAtSpace | src/lib/format-name.ts:8 | any whitespace character separates words, however many stand together or lead: the words around it are the words of the whole |
| WordSplit.RunLengthBefore | src/lib/format-name.ts:8 | the leading word ends at the first whitespace character, whatever follows |
| WordSplit.SplitWs | src/lib/format-name.ts:8 | `split(/\s+/)` of a trimmed string: its words, or one empty piece for "" |
| WordSplit.JoinSnoc | src/lib/format-name.ts:20 | appending a word appends it after one space |
| WordSplit.JoinEdges | src/lib/format-name.ts:20 | joined words are empty iff there are none; they start and end with word characters |
| WordSplit.JoinTrimmed | src/lib/format-name.ts:20 | the final `.trim()` after `join(" ")` changes nothing |
| WordSplit.WordsOfWord | src/lib/format-name.ts:8 | splitting a single word gives it back |
| WordSplit.WordsOfJoin | src/lib/format-name.ts:8-20 | round trip: splitting words joined by single spaces gives the same words |
| WordSplit.JoinWordsBound | src/lib/format-name.ts:8-20 | re-joining the words of a string never makes it longer |
| Dedup.DedupWords | src/lib/format-name.ts:9-18 | the `seen`/`cleaned` loop returns exactly the first-occurrence subsequence |
| Dedup.SeenSnoc | src/lib/format-name.ts:14-16 | `seen` after one more word gains that word's non-empty normalised form |
| Dedup.SeenMembers | src/lib/format-name.ts:14-16 | a form is in `seen` iff it is the non-empty form of some visited word |
| Dedup.LastIsFirst | src/lib/format-name.ts:14 | a word is pushed iff its form is non-empty and not yet seen |
| Dedup.FirstOccurrencesPositions | src/lib/format-name.ts:12-18 | kept words are input words at strictly increasing positions, spelling unchanged |
| Dedup.KeptPositionsFirst | src/lib/format-name.ts:12-18 | a position is kept iff it holds the first word with its non-empty form |
| Dedup.FirstOccurrencesDistinct | src/lib/format-name.ts:12-18 | kept forms are non-empty and pairwise distinct, cover every input form; empty iff no non-empty form |
| Dedup.FirstOccurrencesFixed | src/lib/format-name.ts:12-18 | words with distinct non-empty forms are all kept |
| Dedup.FirstOccurrencesIdempotent | src/lib/format-name.ts:12-18 | running the loop on its own output changes nothing |
| Dedup.FirstOccurrencesAreWords | src/lib/format-name.ts:12-18 | kept pieces are still words |
| Dedup.FirstOccurrencesJoinBound | src/lib/format-name.ts:12-20 | dropping words never lengthens the joined text |
| Dedup.FirstOccurrencesSplit | src/lib/format-name.ts:8-18 | the empty piece `split` yields for "" is never kept |
| FormatName.CleanDuplicateText | src/lib/format-name.ts:4-21 | the method equals `CleanDuplicate`: empty input returned as is, else de-duplicated words |
| FormatName.CleanDuplicateWords | src/lib/format-name.ts:4-21 | the result's words are the first occurrences of the input's words; it is those words joined by single spaces |
| FormatName.CleanDuplicateNoRepeats | src/lib/format-name.ts:13-14 | no two result words share a form (lower case, without ' " ` @); none has an empty form |
| FormatName.CleanDuplicateKeepsFirst | src/lib/format-name.ts:12-18 | result words are input words in order and spelling; exactly the first word with each form is kept |
| FormatName.CleanDuplicateCovers | src/lib/format-name.ts:12-18 | every non-empty form of the input is represented in the result |
| FormatName.CleanDuplicateSymbolsOnly | src/lib/format-name.ts:13-14 | text whose words all normalise to nothing cleans to "" |
| FormatName.CleanDuplicateIdempotent | src/lib/format-name.ts:4-21 | cleaning twice is cleaning once |
| FormatName.FormatUserName | src/lib/format-name.ts:28-59 | `@`+cleaned username if there is one; else the cleaned name unless empty; else the e-mail; empty only if the e-mail is |
| FormatName.FormatUserNameUsernameWins | src/lib/format-name.ts:34-38 | with a username, name and e-mail do not matter; the result starts with '@' followed by the de-duplicated username |
| FormatName.UserInitial | src/lib/format-name.ts:64-76 | upper-cased first character of the first non-empty field; `None` exactly when all are empty (the source throws) |
| Seqs.Filter | src/components/admin/users-table.tsx:149 | `filter`: never longer; contains exactly the elements that pass |
| Seqs.FilterPairwise | src/components/admin/users-table.tsx:149 | filtering keeps relative order (any earlier/later relation survives) |
| Seqs.FilterAll | src/components/admin/users-table.tsx:149 | filtering by a predicate all elements pass is the identity |
| Seqs.FilterConcat | src/components/admin/users-table.tsx:149 | filter distributes over concatenation |
| Seqs.FindFirst | src/lib/auth.ts:23-27 | `None` iff nothing matches; otherwise the first matching element |
| Seqs.Reverse | src/app/api/games/route.ts:8-12 | `orderBy createdAt desc` on insertion-ordered rows: element i is the (n-1-i)-th |
| Seqs.ReverseMembers | src/app/api/games/route.ts:8-12 | newest-first order loses and adds no row |
| Schema.NewUserData | src/app/api/players/route.ts:81-90 | the inserted row: hashed password, `field \|\| null` for the optional fields, never an empty username |
| Schema.Summaries | src/app/api/teams/route.ts:14-20 | the selected `id, name, tag, status` of each team, in order |
| Db.NewMemberRows | src/app/api/teams/route.ts:86-92 | nested `members.create`: one row per spec, ids numbered after the team |
| Db.Reassigned | src/app/api/managers/route.ts:101-109 | `team.updateMany` on a list of teams: same length |
| Db.ReassignedRows | src/app/api/managers/route.ts:101-109 | exactly the listed teams get the new manager; every other column and team is unchanged |
| Db.NestedCreateOk | src/app/api/teams/route.ts:79-93 | a team created with distinct existing players keeps the membership constraints |
| Db.TeamInsertOk | src/app/api/teams/route.ts:79-85 | a team with a fresh id, unused tag and existing manager keeps the team constraints |
| Db.IdsIssued | src/app/api/teams/route.ts:79-93 | issuing more ids keeps the untouched tables' constraints |
| Db.KeepOneUserOk | src/app/api/admin/clear-data/route.ts:50-56 | deleting every user but one, once every team is gone or theirs, keeps user, team and member constraints |
| Db.KeepOneUserRowsOk | src/app/api/admin/clear-data/route.ts:50-56 | the kept user's sessions or accounts keep their constraints |
| Db.KeptUserIds | src/app/api/admin/clear-data/route.ts:50-56 | the remaining user ids are the old ones intersected with `{keep}` |
| Db.KeptOk | src/app/api/admin/clear-data/route.ts:50-56 | the cascade of deleting every other user keeps every constraint |
| Db.UserInsertOk | src/app/api/players/route.ts:81-104 | a user with fresh id, unused e-mail and username keeps every constraint |
| Db.MemberInsertOk | src/app/api/players/route.ts:107-114 | a membership with fresh id, existing ends and an unused pair keeps every constraint |
| Db.TeamCreateOk | src/app/api/teams/route.ts:79-118 | an accepted nested team create keeps every constraint |
| Db.ReassignOk | src/app/api/managers/route.ts:101-109 | reassigning teams to an existing user keeps every constraint |
| Db.GameInsertOk | src/app/api/games/route.ts:55-63 | a game with fresh id and unused name keeps every constraint |
| Db.TournamentInsertOk | src/app/api/tournaments/route.ts:42-52 | a tournament with a fresh id keeps every constraint |
| Db.Store.UserByEmail | src/app/api/players/route.ts:66-68 | `findUnique({ email })`: found iff the e-mail is taken, and the row has it |
| Db.Store.UserById | src/app/api/teams/route.ts:67-69 | `findUnique({ id })`: found iff the id is a user's, and the row has it |
| Db.Store.TeamByTag | src/app/api/teams/route.ts:55-57 | `findUnique({ tag })`: found iff the tag is taken |
| Db.Store.GameByName | src/app/api/games/route.ts:43-45 | `findUnique({ name })`: found iff the name is taken |
| Db.Store.TournamentByName | src/app/api/admin/seed-mock-data/route.ts:266-268 | `findFirst({ name })`: found iff some tournament has the name |
| Db.Store.CreateUser | src/app/api/players/route.ts:81-104 | refused iff e-mail or non-null username is taken; else the row is appended with a fresh id; nothing else changes |
| Db.Store.CreateTeamMember | src/app/api/players/route.ts:107-114 | refused iff an end is missing or the pair exists; else one row appended |
| Db.Store.CreateTeam | src/app/api/teams/route.ts:79-118 | all-or-nothing team plus nested memberships; refused on a taken tag, unknown user or repeated player |
| Db.Store.InsertTeam | src/app/api/teams/route.ts:79-93 | the accepted write: team and its numbered memberships appended |
| Db.Store.SetTeamsManager | src/app/api/managers/route.ts:101-109 | `updateMany`: teams become `Reassigned`; refused iff the manager is not a user |
| Db.Store.CreateGame | src/app/api/games/route.ts:55-63 | refused iff the name is taken; else the game is appended |
| Db.Store.CreateTournament | src/app/api/tournaments/route.ts:42-52 | always appends the row (no unique column) |
| Db.Store.DeleteAllTeamMembers | src/app/api/admin/clear-data/route.ts:21 | table emptied; the count is the old size; nothing else changes |
| Db.Store.DeleteAllTeams | src/app/api/admin/clear-data/route.ts:25 | teams and (by cascade) memberships emptied; the count is the old number of teams |
| Db.Store.DeleteAllTournaments | src/app/api/admin/clear-data/route.ts:29 | table emptied; the count is the old size |
| Db.Store.DeleteAllSessions | src/app/api/admin/clear-data/route.ts:33 | table emptied; the count is the old size |
| Db.Store.DeleteAllAccounts | src/app/api/admin/clear-data/route.ts:36 | table emptied; the count is the old size |
| Db.Store.DeleteAllGames | src/app/api/admin/clear-data/route.ts:41 | table emptied; the count is the old size |
| Db.Store.DeleteUsersExcept | src/app/api/admin/clear-data/route.ts:50-56 | refused iff a team is managed by someone deleted; else only `keep` remains, with its rows, and the count is those removed |
| Db.Store.KeepOnly | src/app/api/admin/clear-data/route.ts:50-56 | the accepted deletion: contents become `Kept(old, keep)` |
| PlayersApi.Entries | src/app/api/players/route.ts:19-31 | each user paired with exactly its memberships |
| PlayersApi.ListPlayers | src/app/api/players/route.ts:7-45 | 401 iff not ADMIN/MANAGER; else the PLAYER users newest first (entry `i` is the `i`-th player from the end), each with its memberships |
| PlayersApi.CreatePlayer | src/app/api/players/route.ts:47-145 | 401/400/400 with nothing written; else the PLAYER row (hashed password, blanks as null) and, with a team id, one membership; 500 cases named |
| ManagersApi.ManagedTeams | src/app/api/managers/route.ts:19-28 | the summaries of exactly the teams whose manager is the user |
| ManagersApi.Entries | src/app/api/managers/route.ts:15-32 | each manager paired with its managed teams |
| ManagersApi.ListManagers | src/app/api/managers/route.ts:7-42 | 401 iff not ADMIN; else the MANAGER users newest first (entry `i` is the `i`-th manager from the end), each with the teams it manages |
| ManagersApi.CreateManager | src/app/api/managers/route.ts:44-137 | 401/400/400 with nothing written; else the MANAGER row; a non-empty `teamIds` hands exactly the listed existing teams to it; 500 on a username clash with nothing written |
| ManagersApi.InsertManager | src/app/api/managers/route.ts:75-129 | the accepted writes and the answer, as above |
| ManagersApi.NewManagerTeams | src/app/api/managers/route.ts:101-126 | no team is managed by the next id, so afterwards it manages exactly the listed teams |
| TeamsApi.ListTeams | src/app/api/teams/route.ts:6-34 | 401 iff no session; else every team's summary, newest first |
| TeamsApi.ParseStatus | src/app/api/teams/route.ts:85 | the enum value a status string names, and only those three strings |
| TeamsApi.StatusText | src/app/api/teams/route.ts:85 | `status \|\| "ACTIVE"` |
| TeamsApi.PlayerSpecs | src/app/api/teams/route.ts:86-92 | one role-less member per listed player, none without a list |
| TeamsApi.CreateTeam | src/app/api/teams/route.ts:36-128 | 401/400 (fields)/400 (tag)/400 (not a manager) with nothing written; else team plus memberships, or 500 with nothing written |
| TeamsApi.InsertTeam | src/app/api/teams/route.ts:79-120 | accepted iff the status is known and the players exist and are distinct; the rows written |
| TeamsApi.SpecsUsers | src/app/api/teams/route.ts:86-92 | membership of specs and index form agree |
| TeamsApi.RowsListPlayers | src/app/api/teams/route.ts:86-92 | the nested rows carry exactly the listed players, without roles |
| GamesApi.ListGames | src/app/api/games/route.ts:6-22 | no session needed; every game, newest first |
| GamesApi.TeamSize | src/app/api/games/route.ts:61 | `playersPerTeam \|\| 5`: never 0; 5 exactly when absent or 0 |
| GamesApi.CreateGame | src/app/api/games/route.ts:24-73 | 201 iff ADMIN, named, name unused; 401/400/400 otherwise with nothing written; the row's blanks as null |
| TournamentsApi.NotAfterTotal | src/app/api/tournaments/route.ts:9-11 | any two dates are ordered one way or the other |
| TournamentsApi.Insert | src/app/api/tournaments/route.ts:9-11 | inserting into a latest-first list keeps it latest-first and adds exactly the one row |
| TournamentsApi.LatestFirstOrder | src/app/api/tournaments/route.ts:8-12 | `orderBy startDate desc`: latest-first and a permutation |
| TournamentsApi.ListTournaments | src/app/api/tournaments/route.ts:6-22 | every tournament exactly once (multiset), latest start first |
| TournamentsApi.StatusText | src/app/api/tournaments/route.ts:50 | `status \|\| "UPCOMING"` |
| TournamentsApi.CreateTournament | src/app/api/tournaments/route.ts:24-62 | 201 iff ADMIN/MANAGER with name and start date; always inserted (names may repeat); 401/400 write nothing |
| ClearData.CompletesWipe | src/app/api/admin/clear-data/route.ts:16-76 | the wipe completes iff no step but the games step fails |
| ClearData.EmptiedTables | src/app/api/admin/clear-data/route.ts:21-47 | each step empties its table exactly when it completes; deleting teams also empties memberships |
| ClearData.AfterWipe | src/app/api/admin/clear-data/route.ts:21-57 | a wipe that reaches the users step leaves only the admin's row, and games only if their deletion was refused |
| ClearData.LogEnds | src/app/api/admin/clear-data/route.ts:18-67 | the log starts with the start line and ends with completion iff it completed, else with the error |
| ClearData.LogCounts | src/app/api/admin/clear-data/route.ts:22-57 | every completed deletion is logged with its row count |
| ClearData.LogWarns | src/app/api/admin/clear-data/route.ts:40-47 | the games warning appears iff the games deletion failed with a message not containing "does not exist" |
| ClearData.RunStep | src/app/api/admin/clear-data/route.ts:21-37 | one deletion and its count line |
| ClearData.EmptyGames | src/app/api/admin/clear-data/route.ts:39-47 | the inner `try`: a refusal is swallowed, logged unless the table is missing |
| ClearData.EmptyLater | src/app/api/admin/clear-data/route.ts:33-47 | sessions, accounts, games: the tables and lines `LaterEmptied`/`LaterLog` |
| ClearData.EmptyEarly | src/app/api/admin/clear-data/route.ts:21-30 | memberships, teams, tournaments; stops at the first refusal |
| ClearData.EmptyTables | src/app/api/admin/clear-data/route.ts:21-47 | the tables and lines before the users step |
| ClearData.Clear | src/app/api/admin/clear-data/route.ts:6-84 | 401 with nothing changed unless ADMIN; else the tables become `After` and the answer is `Outcome` |
| ClearData.Wipe | src/app/api/admin/clear-data/route.ts:14-76 | an ADMIN's wipe: the tables become `After`, the answer is `Outcome` |
| ClearData.DeleteOtherUsers | src/app/api/admin/clear-data/route.ts:50-57 | with dependents gone, every user but the admin is deleted and counted |
| ClearData.StoppedEarly | src/app/api/admin/clear-data/route.ts:65-75 | a failure before games leaves the earlier steps' tables and answers 500 with the log and the error |
| ClearData.StoppedAtUsers | src/app/api/admin/clear-data/route.ts:50-75 | a refused users step leaves the earlier steps' tables and answers 500 |
| ClearData.CompletedAnswer | src/app/api/admin/clear-data/route.ts:57-64 | the 200 answer from the earlier lines and the deleted-users count |
| ClearData.WipeOutcome | src/app/api/admin/clear-data/route.ts:21-64 | a wipe that reaches the users step finds no team left and every user present; it keeps only the admin and answers 200 with the full log |
| SeedMockData.MemberSpecs | src/app/api/admin/seed-mock-data/route.ts:244-250 | one membership per listed player, in order, with its role |
| SeedMockData.DemoConsistent | src/app/api/admin/seed-mock-data/route.ts:8-143 | the route's data is consistent: 8 players, 2 managers, 2 teams, 4 tournaments |
| SeedMockData.PlayersDistinct | src/app/api/admin/seed-mock-data/route.ts:8-81 | the mock players' e-mails and usernames are distinct |
| SeedMockData.ManagersDistinct | src/app/api/admin/seed-mock-data/route.ts:84-103 | the mock managers' e-mails and usernames are distinct |
| SeedMockData.PlayersApartFromManagers | src/app/api/admin/seed-mock-data/route.ts:8-103 | no player shares an e-mail or username with a manager |
| SeedMockData.TeamsWithinLists | src/app/api/admin/seed-mock-data/route.ts:206-223 | every team's manager and player indexes exist and its players are distinct |
| SeedMockData.TournamentNamesDistinct | src/app/api/admin/seed-mock-data/route.ts:106-143 | the mock tournaments' names are distinct |
| SeedMockData.UserLines | src/app/api/admin/seed-mock-data/route.ts:173-176 | one line per mock user, "created" or "already exists" as judged before the run |
| SeedMockData.TeamLines | src/app/api/admin/seed-mock-data/route.ts:255-257 | one line per mock team |
| SeedMockData.TournamentLines | src/app/api/admin/seed-mock-data/route.ts:274-276 | one line per mock tournament |
| SeedMockData.NewCountBounds | src/app/api/admin/seed-mock-data/route.ts:264-273 | `tournamentsCreated` is at most the number of mocks, and 0 iff all exist |
| SeedMockData.ReportOfComplete | src/app/api/admin/seed-mock-data/route.ts:161-296 | on a seeded database the report lists everything as existing and counts no new tournament |
| SeedMockData.SameEmailSameRow | src/app/api/admin/seed-mock-data/route.ts:162-164 | a valid users table has one row per e-mail |
| SeedMockData.DistinctIds | src/app/api/admin/seed-mock-data/route.ts:160-179 | rows found by distinct e-mails are distinct users |
| SeedMockData.UsersStep | src/app/api/admin/seed-mock-data/route.ts:161-179 | one pass of a users loop keeps the loop's progress invariant |
| SeedMockData.UsersRefused | src/app/api/admin/seed-mock-data/route.ts:167-172 | a refused insert means some mock could not be served from the start |
| SeedMockData.UsersDone | src/app/api/admin/seed-mock-data/route.ts:161-179 | after the last pass every mock was servable and the lines are the report's |
| SeedMockData.GetOrCreateUser | src/app/api/admin/seed-mock-data/route.ts:162-178 | reuse the row with the e-mail, or insert the mock with its hashed password; `None` iff a new e-mail's username is taken; the new tables are exactly `UserStep`'s |
| SeedMockData.GetOrCreateUsers | src/app/api/admin/seed-mock-data/route.ts:161-179 | the loop succeeds iff every mock is servable; lines and rows as judged before the run; the new tables are exactly `RunUsers` of the old ones, including what a refused run leaves |
| SeedMockData.UsersPass | src/app/api/admin/seed-mock-data/route.ts:161-179 | one loop pass preserves progress or reports the refusal; the new tables are exactly `UserStep`'s |
| SeedMockData.SameTagSameTeam | src/app/api/admin/seed-mock-data/route.ts:227-229 | tags are unique in a valid teams table |
| SeedMockData.TeamForGrows | src/app/api/admin/seed-mock-data/route.ts:226-260 | what was pushed for a team stays true as the tables grow |
| SeedMockData.GetOrCreateTeam | src/app/api/admin/seed-mock-data/route.ts:227-259 | reuse the team with the tag, or create it with its memberships; the new tables are exactly `TeamStep`'s |
| SeedMockData.FoundTeamFor | src/app/api/admin/seed-mock-data/route.ts:256-258 | the reused team is the one the starting table had |
| SeedMockData.CreatedTeamFor | src/app/api/admin/seed-mock-data/route.ts:237-255 | the created team and its memberships are what the loop records |
| SeedMockData.CreateMockTeam | src/app/api/admin/seed-mock-data/route.ts:237-253 | a new ACTIVE team with the next id under the listed manager, with one membership per listed player numbered after it |
| SeedMockData.NestedRowsListed | src/app/api/admin/seed-mock-data/route.ts:244-250 | the nested rows list each player once, in order, with its role |
| SeedMockData.TeamsStep | src/app/api/admin/seed-mock-data/route.ts:226-260 | one pass of the teams loop keeps its progress |
| SeedMockData.GetOrCreateTeams | src/app/api/admin/seed-mock-data/route.ts:225-260 | one team and line per mock team; nothing written when all tags exist; the new tables are exactly `RunTeams` of the old ones |
| SeedMockData.TournamentsStep | src/app/api/admin/seed-mock-data/route.ts:265-278 | one pass of the tournaments loop keeps its progress |
| SeedMockData.TournamentsDone | src/app/api/admin/seed-mock-data/route.ts:265-278 | after the loop every mock tournament has a namesake |
| SeedMockData.GetOrCreateTournament | src/app/api/admin/seed-mock-data/route.ts:266-277 | insert iff no tournament has the name; the line says which; the new tables are exactly `TournamentStep`'s |
| SeedMockData.GetOrCreateTournaments | src/app/api/admin/seed-mock-data/route.ts:264-278 | `created` counts the inserts, one row per absent mock, every mock named afterwards; the new tables are exactly `RunTournaments` of the old ones |
| SeedMockData.TournamentsPass | src/app/api/admin/seed-mock-data/route.ts:265-278 | one pass with its counter and lines; the new tables are exactly `TournamentStep`'s |
| SeedMockData.SeedUsers | src/app/api/admin/seed-mock-data/route.ts:158-202 | both users loops: success iff all mocks are servable; found rows and lines; the new tables are exactly `RunAllUsers` of the old ones |
| SeedMockData.SeedManagers | src/app/api/admin/seed-mock-data/route.ts:181-202 | the managers loop leaves the players found before in place; the new tables are exactly `RunUsers` over the managers |
| SeedMockData.SeedTeamsAndTournaments | src/app/api/admin/seed-mock-data/route.ts:204-278 | teams then tournaments; every tag and name present afterwards; users untouched; the new tables are exactly `RunTournaments` after `RunTeams` |
| SeedMockData.SeedWith | src/app/api/admin/seed-mock-data/route.ts:156-309 | 200 iff all mock users servable, with the report and stats; afterwards everything is seeded; a seeded database is left unchanged; the new tables are exactly `RunSeed` of the old ones; games, sessions and accounts untouched; after a 500 only users were written; after a 200 the users are the old ones plus exactly the absent mocks' rows |
| SeedMockData.RowsFound | src/app/api/admin/seed-mock-data/route.ts:160-202 | the rows the users loops push are the rows with their mocks' e-mails |
| SeedMockData.Seed | src/app/api/admin/seed-mock-data/route.ts:145-310 | 401 unless ADMIN with nothing changed; otherwise `SeedWith` on the route's data: the tables are exactly `RunSeed`'s, games, sessions and accounts untouched, only users written before a 500, and exactly the absent mocks' users added on a 200 |
| SeedMockData.Absent | src/app/api/admin/seed-mock-data/route.ts:161-179 | the mocks whose e-mail is not yet taken, in order: a subsequence of the mocks |
| SeedMockData.MockRows | src/app/api/admin/seed-mock-data/route.ts:166-172 | the rows inserted for a list of mocks: each mock's data with the hashed password, ids consecutive |
| SeedMockData.RunUsersShape | src/app/api/admin/seed-mock-data/route.ts:161-179 | a users loop writes only users and the id counter, keeps the old rows first, adds at most one row per mock, and leaves every mock's e-mail taken when it runs to its end |
| SeedMockData.AllUsersShape | src/app/api/admin/seed-mock-data/route.ts:158-202 | both users loops together write only users and ids, adding at most one row per mock user |
| SeedMockData.AllUsersTaken | src/app/api/admin/seed-mock-data/route.ts:158-202 | when both loops run to their end every mock user's e-mail is taken |
| SeedMockData.RunUsersExact | src/app/api/admin/seed-mock-data/route.ts:161-179 | from any pass on, a loop that runs to its end leaves exactly the absent mocks' rows appended, in order |
| SeedMockData.UsersRunExactly | src/app/api/admin/seed-mock-data/route.ts:161-179 | a users loop that runs to its end appends exactly the absent mocks' rows with consecutive ids |
| SeedMockData.SeededUsersExactly | src/app/api/admin/seed-mock-data/route.ts:158-202 | both loops append the absent players' rows and then the absent managers' rows, nothing else |
| SeedMockData.RunTeamsShape | src/app/api/admin/seed-mock-data/route.ts:225-260 | the teams loop writes only teams, memberships and ids, keeps the old rows first, and adds at most one team per mock team |
| SeedMockData.RunTournamentsShape | src/app/api/admin/seed-mock-data/route.ts:264-278 | the tournaments loop writes only tournaments and ids, keeps the old rows first, and adds at most one per mock |
| SeedMockData.SeedRunShape | src/app/api/admin/seed-mock-data/route.ts:156-309 | a run never touches games, sessions or accounts, writes only users before a 500, and adds at most one user per mock user |
| SeedMockData.SeededUsers | src/app/api/admin/seed-mock-data/route.ts:156-309 | after a 200 the users table is the old one plus exactly the absent mocks' rows |
| Auth.Public | src/lib/auth.ts:45-51 | the five columns `authorize` returns |
| Auth.Authorize | src/lib/auth.ts:16-56 | null on missing credentials, a fault, an unknown e-mail or a wrong password; otherwise the matching user's public fields |
| Auth.FoundByEmail | src/lib/auth.ts:23-27 | with unique e-mails the lookup finds that user |
| Auth.AuthorizeExactly | src/lib/auth.ts:16-56 | sign-in succeeds iff no fault and the password verifies against that user's hash; returns that user |
| Auth.SignInAfterCreate | src/app/api/players/route.ts:77-104 | a user created with `hash(password)` can sign in with that password and gets the inserted fields |
| Auth.JwtClaims | src/lib/auth.ts:67-86 | on sign-in the five fields are copied; otherwise only the avatar can change |
| Auth.Refreshed | src/lib/auth.ts:76-84 | the "update" refresh changes only the avatar, and nothing without the trigger or an id |
| Auth.UpdateRefreshesAvatar | src/lib/auth.ts:76-84 | an update for a stored user sets exactly that user's avatar |
| Auth.UpdateUnknownIdKeepsToken | src/lib/auth.ts:81-83 | an update for an unknown id leaves the token as it was |
| Auth.RefreshIdempotent | src/lib/auth.ts:76-84 | refreshing twice is refreshing once |
| Auth.FieldsOf | src/lib/auth.ts:88-94 | the session fields are the token's five claims |
| Auth.SignInSession | src/lib/auth.ts:16-95 | after sign-in the session has the id, role and avatar stored for the entered e-mail |
| Auth.Token.constructor | src/lib/auth.ts:67 | a token holding the given claims |
| Auth.Token.Jwt | src/lib/auth.ts:67-86 | the token's new claims are `JwtClaims` of the old ones |
| Auth.Session.constructor | src/lib/auth.ts:87 | a session holding the given user fields |
| Auth.Session.Fill | src/lib/auth.ts:87-96 | a present `session.user` takes all five fields from the token; an absent one stays absent |
| Forms.NullIfEmpty | src/app/dashboard/managers/page.tsx:156-159 | `x \|\| null`: null iff empty, else the text |
| Forms.Without | src/app/dashboard/managers/page.tsx:225 | `filter(id => id !== x)`: x gone, every other id's membership kept, never longer |
| Forms.Toggle | src/app/dashboard/managers/page.tsx:221-228 | absent: appended; present: removed; other ids unchanged |
| Forms.WithoutConcat | src/app/dashboard/managers/page.tsx:225 | removal distributes over concatenation |
| Forms.WithoutAbsent | src/app/dashboard/managers/page.tsx:225 | removing an absent id changes nothing |
| Forms.WithoutCounts | src/app/dashboard/managers/page.tsx:225 | removal deletes exactly the occurrences of that id |
| Forms.ToggleTwiceAbsent | src/app/dashboard/managers/page.tsx:221-228 | ticking then unticking a box restores the list |
| Forms.ToggleTwicePresent | src/app/dashboard/managers/page.tsx:221-228 | unticking then ticking moves the id to the end |
| Forms.WithoutNoDuplicates | src/app/dashboard/teams/new/page.tsx:100 | removal keeps a list duplicate-free |
| Forms.ToggleNoDuplicates | src/app/dashboard/teams/new/page.tsx:96-103 | a toggle keeps a list duplicate-free |
| Forms.ToggleAllNoDuplicates | src/app/dashboard/teams/new/page.tsx:96-103 | any click sequence keeps a list duplicate-free |
| PlayersPage.Collapse | src/app/dashboard/players/page.tsx:97-108 | the trimmed first half is kept exactly when both trimmed halves are non-empty and the second's comparison form starts with (or equals) the first's; otherwise the text is unchanged |
| PlayersPage.HalveIfDoubled | src/app/dashboard/players/page.tsx:94-108 | the method equals `Collapse` |
| PlayersPage.CleanName | src/app/dashboard/players/page.tsx:91-131 | the method equals `CleanNameSpec` |
| PlayersPage.DedupNameWords | src/app/dashboard/players/page.tsx:111-129 | the words of the de-duplicated text are the first occurrences of the input's words |
| PlayersPage.CleanNameNull | src/app/dashboard/players/page.tsx:91-131 | null iff the name is null or empty or no word has a non-empty form; else non-empty and no longer than the trimmed name |
| PlayersPage.CleanNameWords | src/app/dashboard/players/page.tsx:111-129 | result words: first occurrences in order and spelling, distinct non-empty forms |
| PlayersPage.TrimLeadingSpace | src/app/dashboard/players/page.tsx:98-99 | trimming a space-prefixed unpadded text gives it back |
| PlayersPage.CollapseEqualHalves | src/app/dashboard/players/page.tsx:102-107 | equal trimmed halves collapse to one |
| PlayersPage.CollapseDoubled | src/app/dashboard/players/page.tsx:97-107 | a name typed twice back-to-back halves to one copy |
| PlayersPage.CollapseDoubledSpaced | src/app/dashboard/players/page.tsx:97-107 | a name typed twice with a space halves to one copy |
| PlayersPage.CleanNameOfCollapsed | src/app/dashboard/players/page.tsx:91-131 | a name that halves to joined words cleans to their de-duplication |
| PlayersPage.JoinedEdges | src/app/dashboard/players/page.tsx:129 | joined words have no edge whitespace |
| PlayersPage.CopiesUnpadded | src/app/dashboard/players/page.tsx:94 | two unpadded copies side by side are unpadded |
| PlayersPage.SpacedCopiesUnpadded | src/app/dashboard/players/page.tsx:94 | two unpadded copies around a space are unpadded |
| PlayersPage.DoubledHalves | src/app/dashboard/players/page.tsx:94-108 | a doubled name is unpadded and halves back |
| PlayersPage.CleanNameDoubled | src/app/dashboard/players/page.tsx:91-131 | saving a name typed twice stores the de-duplicated single copy |
| PlayersPage.CleanNameDoubledSpaced | src/app/dashboard/players/page.tsx:91-131 | the same with a space between the copies |
| PlayersPage.Submit | src/app/dashboard/players/page.tsx:248-280 | rejected, with the password-required alert, iff creating without a password; verb and URL by editing; the cleaned name; username, bio, avatar, team id and team role each the field when typed, null when blank; password only if typed |
| PlayersPage.AvatarDeleteUrl | src/app/dashboard/players/page.tsx:290-296 | the avatar DELETE is sent iff a saved edit cleared an avatar that was there |
| PlayersPage.OpenEdit | src/app/dashboard/players/page.tsx:182-199 | null fields shown as "", blank password, first membership's team and role, avatar remembered |
| PlayersPage.EditUnchangedRoundTrip | src/app/dashboard/players/page.tsx:182-296 | opening and saving unchanged sends back the stored values and the cleaned name, no password and no avatar deletion |
| ManagersPage.BlankForm | src/app/dashboard/managers/page.tsx:111-123 | every field blank, no team ticked |
| ManagersPage.ToggleTeam | src/app/dashboard/managers/page.tsx:221-228 | the box flips; other teams and fields unchanged |
| ManagersPage.Submit | src/app/dashboard/managers/page.tsx:144-172 | rejected with the alert iff creating without a password; verb and URL by editing; blanks as null; teams verbatim; password only if typed |
| ManagersPage.TeamRowIds | src/app/dashboard/managers/page.tsx:134 | `managedTeams.map(t => t.id)` |
| ManagersPage.OpenEdit | src/app/dashboard/managers/page.tsx:125-137 | stored values with null as "", blank password, managed teams ticked in order |
| ManagersPage.BlankCreateRejected | src/app/dashboard/managers/page.tsx:111-172 | the blank create dialog is refused for the missing password |
| ManagersPage.EditUnchangedRoundTrip | src/app/dashboard/managers/page.tsx:125-165 | opening and saving unchanged sends the stored values, current teams and no password as a PUT |
| ManagersPage.UntickManagedTeam | src/app/dashboard/managers/page.tsx:125-228 | unticking a managed team sends every other managed team but not that one |
| NewTeamPage.InitialForm | src/app/dashboard/teams/new/page.tsx:52-59 | blank fields, status ACTIVE, no player selected |
| NewTeamPage.SetTag | src/app/dashboard/teams/new/page.tsx:210 | the tag is the upper-cased input: same length, a-z shifted to A-Z, characters without a case kept; nothing else changes |
| NewTeamPage.TogglePlayer | src/app/dashboard/teams/new/page.tsx:96-103 | the player's box flips; other players and fields unchanged |
| NewTeamPage.Body | src/app/dashboard/teams/new/page.tsx:115-122 | the request carries the form; a blank description as null; the selected players |
| NewTeamPage.UpperCharIdempotent | src/app/dashboard/teams/new/page.tsx:210 | upper-casing a character twice is upper-casing it once |
| NewTeamPage.TagIsUpper | src/app/dashboard/teams/new/page.tsx:210 | the stored tag is already upper case |
| NewTeamPage.AfterClicks | src/app/dashboard/teams/new/page.tsx:96-103 | a click sequence toggles each id in turn; other fields unchanged |
| NewTeamPage.RequestPlayersDistinct | src/app/dashboard/teams/new/page.tsx:96-122 | however the boxes are clicked, the request names each player at most once |
| NewTeamPage.ClicksFirst | src/app/dashboard/teams/new/page.tsx:96-103 | counting clicks: the first, then the rest |
| NewTeamPage.ToggleAllParity | src/app/dashboard/teams/new/page.tsx:96-103 | a player is selected iff its previous state and the parity of its clicks say so |
| NewTeamPage.RequestPlayersOddClicks | src/app/dashboard/teams/new/page.tsx:96-122 | the request names a player iff its box was clicked an odd number of times |
| UsersTable.BlankForm | src/components/admin/users-table.tsx:52-58 | blank fields, role PLAYER |
| UsersTable.WithCount | src/components/admin/users-table.tsx:71 | the answered user with its membership count |
| UsersTable.RecordOf | src/components/admin/users-table.tsx:121 | the record a row was made from; adding the count back gives the row |
| UsersTable.AfterCreate | src/components/admin/users-table.tsx:60-91 | success appends the user with 0 memberships, closes the dialog, resets the form; failure changes nothing |
| UsersTable.OpenEdit | src/components/admin/users-table.tsx:93-103 | the row being edited, its values with null as "", blank password |
| UsersTable.Replace | src/components/admin/users-table.tsx:118-124 | rows with the id take the answered values and keep their count; others unchanged |
| UsersTable.AfterUpdate | src/components/admin/users-table.tsx:105-138 | no-op without an edited user or on failure; else the rows replaced and the dialog closed |
| UsersTable.Remove | src/components/admin/users-table.tsx:149 | exactly the rows with another id stay |
| UsersTable.AfterDelete | src/components/admin/users-table.tsx:140-159 | confirmed and successful: the user's rows go; otherwise nothing changes |
| UsersTable.DeleteKeepsOrder | src/components/admin/users-table.tsx:149 | deleting keeps the remaining rows in order |
| UsersTable.DeleteKeepsDistinct | src/components/admin/users-table.tsx:149 | deleting keeps ids distinct |
| UsersTable.RemoveAbsent | src/components/admin/users-table.tsx:149 | deleting an unlisted id changes nothing |
| UsersTable.CreateThenDelete | src/components/admin/users-table.tsx:60-159 | create a user with a new id, then delete it: the list is as before |
| UsersTable.ReplaceIdempotent | src/components/admin/users-table.tsx:118-124 | applying the same update twice is applying it once |
| UsersTable.EditUnchangedRoundTrip | src/components/admin/users-table.tsx:93-138 | opening a row and receiving it back unchanged leaves the list as it was and closes the dialog |
| AdminPage.RowOf | src/app/admin/page.tsx:21-33 | the selected columns and `_count.teamMembers` |
| AdminPage.Rows | src/app/admin/page.tsx:17-34 | one row per user, in order |
| AdminPage.RoleCount | src/app/admin/page.tsx:38-40 | `filter(role).length`, at most the total |
| AdminPage.StatsOf | src/app/admin/page.tsx:36-41 | total is the length; each role count at most the total |
| AdminPage.Render | src/app/admin/page.tsx:10-41 | redirect to /dashboard iff not ADMIN; else users newest first and counts equal to the store's users by role |
| AdminPage.StatsSum | src/app/admin/page.tsx:36-41 | admins + managers + players = total |
| AdminPage.RoleCountRows | src/app/admin/page.tsx:36-41 | counting on the rows counts on the users |
| AdminPage.OfRoleConcat | src/app/admin/page.tsx:38-40 | selecting a role distributes over concatenation |
| AdminPage.OfRoleReverse | src/app/admin/page.tsx:17-20 | newest-first order does not change a role's count |
| AdminPage.RoleCountNewestFirst | src/app/admin/page.tsx:17-41 | the counts on the newest-first rows equal the counts on the store |
| AdminPage.StatsMatchListings | src/app/admin/page.tsx:36-41 | an ADMIN's player and manager figures equal the lengths the players and managers listings return |

## Left out

- Password hashing and comparison (bcrypt) are function parameters; their cost factor and salt are not modelled.
- Dates are opaque strings compared lexicographically. This matches the ISO timestamps the routes pass around; `new Date(...)` parsing is not modelled.
- TournamentsApi.CreateTournament: answers 201 and inserts the row for any start and end date text. The source passes `new Date(startDate)` and `new Date(endDate)` to the insert (src/app/api/tournaments/route.ts:46-47), so an unparsable date is an invalid date that the database rejects and the route answers 500; the model does not distinguish parsable dates.
- Tournament `prizePool` (`parseFloat`) is not modelled, because it involves floating point.
- `createdAt` is not a column: rows are kept in insertion order, and "newest first" is the reverse of that order.
- Prisma's `include`/`select` response shapes are modelled only as far as the contracts need:
  - the memberships, managed teams and team summaries;
  - not the nested `team`/`manager`/`user` objects.
- The 500 answers of the list routes (a database error while reading) are not modelled, because reads never fail in this model.
- Log text, emoji and console output are left out. The clear-data and seed `results` lines are datatypes carrying their counts, names and e-mails, not their Russian text.
- Store faults inside `authorize` and `jwt`:
  - a failing lookup or comparison in `authorize` is the `fault` parameter;
  - a failing avatar re-read in `jwt` is not modelled.
- Per-id endpoints are not part of this model. The pages call them (`PUT`/`DELETE /api/players/[id]`, `/api/managers/[id]`, `/api/admin/users/[id]`, `/api/users/[id]/avatar`, `POST /api/admin/users`); the model keeps only the URL or the answer.
- Client ids are `string` on the dashboard pages and `nat` in `UsersTable` and `AdminPage`. The pages only compare them for equality.
- The JWT's `id` claim is an `Option`. The JavaScript truthiness of an empty-string id is not distinguished.
- `fetch`, `router.refresh`, loading/submitting flags, dialogs' open state on the pages other than the users table, alerts on failed requests, and JSX rendering are left out.
- The tag field's `maxLength={20}` is enforced by the browser, not by the code, and is not modelled.
- The seed route's "manager not found" skip (route.ts:232-235) is not modelled. It cannot happen once both users loops succeeded, because every team's manager is one of the seeded managers.
- The seed route's failure answer carries `error.message`, `details` and `stack`; the model answers only `SeedFailed` (500).
- The database is used by one request at a time: concurrent requests and transactions are not modelled.
- Case folding covers ASCII Latin A-Z and basic Cyrillic only. Accented Latin, ß and all other scripts are left unchanged, and length-changing case maps (ß→SS) are not modelled; JavaScript's `toLowerCase`/`toUpperCase` use the full Unicode tables.
- Strings are sequences of Unicode scalar values, while JavaScript strings are sequences of UTF-16 code units. Text made only of characters from the Basic Multilingual Plane behaves identically; the members below differ on characters outside it (emoji, for example):
- PlayersPage.Collapse: halves by scalar count, not by UTF-16 length; for "aa😀" (four code units, three scalars) JavaScript compares "aa" with the emoji and keeps the text, while the model compares "a" with "a😀" and keeps "a".
- PlayersPage.CleanName: inherits the `Collapse` difference above; `cleanName("aa😀")` is "aa😀" in JavaScript and "a" here.
- FormatName.UserInitial: takes the first scalar value, whereas JavaScript's `s[0]` takes the first code unit, which for an emoji is a lone surrogate.
- Server ids are `nat`s issued from the store's `nextId` counter; Prisma issues `cuid` strings. Only equality and freshness of ids are used.
- The `teamId` of `POST /api/players` (src/app/api/players/route.ts:107) and the `managerId` of `POST /api/teams` (src/app/api/teams/route.ts:47) are `Option<Id>`: a missing, null or empty-string id is `None`, which is the case those checks reject or skip.
