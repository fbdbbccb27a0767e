# Werewolf rules engine and room phase machine

A Dafny model of the rules engine of a browser werewolf game ("Loup-Garou") and of the
room phase machine that its API routes drive.

- `types.dfy` (`Types`): the role catalog, the night order, the default role
  configuration, and the records the store keeps: players, night actions, votes, the
  room and logged events.
- `engine.dfy` (`Engine`): the rules engine.
  - The win check and the one-level lover cascade are functions.
  - `compileNightResult` is a method that pushes, like the source. It is proved equal to
    a night-resolution function whose properties are lemmas.
  - `tallyVotes` is a method with its two loops, proved against vote counts.
  - The night sequencer is a function. A lemma shows that calling it repeatedly visits
    every living role once, in night order.
  - `assignRoles` is a method: it builds the pool, shuffles it in place on an array, and
    deals the roles.
  - `generateRoomCode` is a method.
- `text.dfy` (`Text`): the JavaScript `trim` and `toUpperCase` that the join route
  applies to its input.
- `bots.dfy` (`Bots`): which night action and which day vote a bot may choose, and the
  vote upsert keyed on (day, voter).
- `rooms.dfy` (`Rooms`): the store and the routes.
  - The Supabase tables become a `Store` class with fields for the room, the players,
    the night actions, the votes and the event log.
  - Each route is a method on `Store`: join, start, advance-reveal, night-action,
    vote and bot-turn.
  - Each method is proved equal to a step function on a `StoreState` value. The
    properties of the phase machine are lemmas about those step functions.

Randomness (`Math.random`) becomes an arbitrary choice within the range the source draws
from (`:|`). HTTP responses are values of a `Response` datatype that carry the status
code of each error.

Behaviour of the code that the model keeps as written:

- The win check at the end of a night runs on a snapshot in which every player not killed
  that night counts as alive, including players who died earlier
  (`Rooms.NightSnapshotRevives` exhibits it).
- The vote route looks the lover partner up among the living, while night resolution
  looks among all players. With unique ids the two agree (`Rooms.VoteCascadeAgrees`).
- `tallyVotes` never reads its `players` argument. `Engine.TallyVotes`' contract
  mentions only the votes.
- The vote route resets the completed roles to `[]`, so a living Cupidon is woken on
  every later night (`Rooms.LaterNightsWakeCupidon`).
- The "lovers" outcome of `checkWinCondition` cannot be produced: the villager and
  wolf-parity checks run first (`Engine.LoversNeverWin`). A lovers win would need two
  non-wolf lovers with no wolf alive, and that case already returns "villagers".
- A negative role count adds no copies to the pool, so the pool is never shorter than the
  configured total (`Engine.PoolCoversTotal`). Start deals only when that total equals the
  number of players, so every player gets a role. With negative counts the pool is longer
  than the player list, and its extra entries are never dealt (`Rooms.StartDeals`).

## Model

| member | source | states |
|---|---|---|
| Types.NightOrderMatchesCatalog | types.ts:24-35 | the night order lists exactly the roles with a night position, at positions 1..6 in strictly increasing order, with no role twice |
| Types.DayOnlyRoles | types.ts:26-35 | Villageois and Chasseur have no night position and are not in the night order |
| Types.OnlyWolfIsLoupGarou | types.ts:25-32 | a role is on the wolf team exactly when it is Loup-Garou |
| Types.DefaultConfigShape | types.ts:37-39 | the default configuration names every role once, with non-negative counts that total 9 |
| Engine.WinOutcome | lib/game-engine.ts:4-15 | villagers win exactly when no wolf is alive; wolves win exactly when some wolf is alive and the living wolves are at least as many as the living others; otherwise there is no winner |
| Engine.LoversNeverWin | lib/game-engine.ts:8-13 | the win check never returns the lovers outcome |
| Engine.CascadeIsLivingPartner | lib/game-engine.ts:17-25 | the cascade names someone exactly when there is a bond, the victim is half of it and the partner is a living player; it then names the partner, never the victim of a bond between two players |
| Engine.FirstOfType | lib/game-engine.ts:28 | the pick is an action of the type from the list, and there is none exactly when no action has the type |
| Engine.FirstOfTypeIsFirst | lib/game-engine.ts:28 | the pick is the action at the first position holding the type; later duplicates are ignored |
| Engine.OnlyFirstActionOfEachType | lib/game-engine.ts:28-32 | appending actions whose types already occur does not change the night's outcome |
| Engine.NightKillPriority | lib/game-engine.ts:36-48 | a protect on the kill target gives the protected line, otherwise a heal on it gives the saved line, otherwise the target is devoured; with no kill action the first line is "nothing happened"; the deaths begin with the target and its living partner when the kill lands |
| Engine.NightPoison | lib/game-engine.ts:50-58 | a poison target always ends up dead; a poison target that is already dead, or no poison target, leaves the deaths of the kill unchanged |
| Engine.NightSummaryNeverEmpty | lib/game-engine.ts:49-60 | the summary has at least one line, is exactly "nothing happened" when nobody dies and no kill target exists, and `saved` holds exactly when some heal action exists |
| Engine.NightDeathsDistinct | lib/game-engine.ts:44-56 | with a bond between two different players, no id appears twice in the deaths |
| Engine.NightDeathsAnnounced | lib/game-engine.ts:35-59 | the names in the summary's death lines are the names of the deaths, in the same order |
| Engine.NightDeathsAccountedFor | lib/game-engine.ts:37-58 | a player dies exactly when they are the landed kill target, the poison target, the living partner of the landed kill target, or the living partner of the poison target |
| Engine.CompileNightResult | lib/game-engine.ts:27-61 | the pushed deaths, saved flag and summary equal the night resolution of the actions |
| Engine.CompileKill | lib/game-engine.ts:36-49 | the kill block writes exactly the kill stage's deaths and lines: protected, saved, devoured with its cascade, or the quiet line when nobody acted |
| Engine.CompilePoison | lib/game-engine.ts:50-58 | the poison block appends exactly the poison stage's deaths and lines to what the kill block wrote |
| Engine.VoteCountPositive | lib/game-engine.ts:65 | a target named by some ballot has at least one vote |
| Engine.TopDecides | lib/game-engine.ts:66-72 | once the maximum and the targets reaching it are known, a single such target is the unique top and several are a tie |
| Engine.CountVotes | lib/game-engine.ts:64-65 | a target has an entry exactly when it received votes, its entry is its vote count, and the keys list each target once |
| Engine.TallyVotes | lib/game-engine.ts:63-73 | counts are the vote counts; the tie flag holds exactly when two targets share the top count; a target is eliminated exactly when it has strictly more votes than anyone else; with no votes there is no elimination and no tie |
| Engine.FirstPending | lib/game-engine.ts:75-81 | the first role of the order that is not completed and is held, none exactly when no such role remains |
| Engine.NextNightRoleSpec | lib/game-engine.ts:75-81 | the next role is in the night order, not completed and held by a living player; there is none exactly when every night role is completed or unheld; every role earlier in the night order is completed or unheld |
| Engine.FirstPendingIsFirst | lib/game-engine.ts:75-81 | in an order without repeats, every role before the one found is completed or unheld |
| Engine.PendingMembers | lib/game-engine.ts:76-79 | a role is pending exactly when it is in the order, not completed and held |
| Engine.ScheduleIsPending | lib/game-engine.ts:75-81 | calling the sequencer repeatedly, each time appending the role it returned, wakes exactly the pending roles in order |
| Engine.NightVisitsEachPresentRoleOnce | lib/game-engine.ts:75-81 | over a night, every night role held by a living player is woken once, in strictly increasing night position, and no other role is woken |
| Engine.PoolMultiplicity | lib/game-engine.ts:84-87 | the unshuffled pool holds each role exactly as often as the configuration asks (negative counts give none) |
| Engine.PoolCoversTotal | lib/game-engine.ts:84-87 | the pool is at least as long as the configured total, and exactly as long when no count is negative |
| Engine.ConfiguredCount | lib/game-engine.ts:84-87 | when each role is configured once, its number of copies is its count, or 0 for a negative count |
| Engine.BuildPool | lib/game-engine.ts:84-87 | the pushed pool is each entry's role repeated by its count, entry after entry |
| Engine.ShufflePool | lib/game-engine.ts:88-91 | the swap loop only permutes the array |
| Engine.RoleMapSpec | lib/game-engine.ts:92-93 | every id gets an entry, and with distinct ids id number k gets pool entry k (or none past the pool's end) |
| Engine.AssignRoles | lib/game-engine.ts:83-95 | the result deals a permutation of the configured pool, by position |
| Engine.DealPool | lib/game-engine.ts:92-93 | id number k gets pool entry k, and ids past the end of the pool get no role |
| Engine.AssignmentMatchesConfig | lib/game-engine.ts:83-95 | with distinct ids and non-negative counts totalling the number of ids, every id gets a role and each role is dealt exactly its configured count |
| Engine.CodeAlphabetShape | lib/game-engine.ts:98 | the alphabet has 32 symbols, each an upper-case letter other than I and O or a digit 2..9 |
| Engine.GenerateRoomCode | lib/game-engine.ts:97-100 | the code has six characters, each from the alphabet |
| Text.LeadingSpace | app/api/room/join/route.ts:7-8 | the count of leading characters that are white space, stopping at the first that is not |
| Text.TrailingSpace | app/api/room/join/route.ts:7-8 | the count of trailing characters that are white space, stopping at the last that is not |
| Text.TrimEmpty | app/api/room/join/route.ts:7-8 | trimming gives the empty string exactly for input made only of white space |
| Text.TrimEnds | app/api/room/join/route.ts:17 | a non-empty trimmed name neither starts nor ends with white space |
| Text.TrimIsSlice | app/api/room/join/route.ts:17 | the trimmed name is the contiguous part of the input that follows the leading white space |
| Text.TrimIdempotent | app/api/room/join/route.ts:17 | trimming twice is trimming once |
| Text.ToUpperNoLower | app/api/room/join/route.ts:11 | upper-casing keeps the length and leaves no lower-case letter |
| Text.ToUpperIgnoresCase | app/api/room/join/route.ts:11 | two codes that differ only in letter case upper-case to the same code, so either spelling finds the room |
| Text.UpperCharSpec | app/api/room/join/route.ts:11 | lower-case ASCII letters map to their capitals and every other character is fixed |
| Text.ToUpperIdempotent | app/api/room/join/route.ts:11 | upper-casing twice is upper-casing once |
| Text.ToUpperFixed | app/api/room/join/route.ts:11 | a code without lower-case letters, such as a generated one, is its own upper-case form |
| Bots.BotNightChoice | app/api/room/bot-turn/route.ts:34-69 | the wolf bot kills a living non-wolf, the seer bot reveals a living player other than itself, the witch bot passes, the Garde bot protects a living player other than itself and the last protected one, the Cupidon bot links the first two other living players on night 1, the little-girl bot spies, and each passes when nobody qualifies |
| Bots.CupidonLinksTwoOthers | app/api/room/bot-turn/route.ts:60-66 | a bot's lover link joins two different living players, neither of them the bot |
| Bots.CupidonOnlyOnFirstNight | app/api/room/bot-turn/route.ts:60-66 | the Cupidon bot links lovers exactly on night 1 with at least two other living players |
| Bots.ChooseBotVotes | app/api/room/bot-turn/route.ts:92-107 | each cast vote is for today, by a living bot that had not voted, for another living player; every such bot with somebody to vote for votes; no two rows share a (day, voter) key |
| Bots.BotBallot | app/api/room/bot-turn/route.ts:102-106 | a bot that has voted, or has nobody else alive to pick, casts nothing; otherwise it casts a legitimate vote of its own |
| Bots.AppendKeepsUniqueKeys | app/api/room/bot-turn/route.ts:106 | adding a vote whose (day, voter) key is new keeps the keys unique |
| Bots.UpsertSpec | app/api/room/bot-turn/route.ts:109 | upserting one row keeps one vote per key, holds the row as the only vote with its key, and keeps the votes with other keys |
| Bots.UpsertMembers | app/api/room/bot-turn/route.ts:109 | after an upsert the row is present, rows with other keys stay, and no other row appears |
| Bots.UpsertKeepsUnique | app/api/room/bot-turn/route.ts:109 | an upsert keeps one vote per key and the row is the only one with its key |
| Bots.UniqueKeysTail | app/api/room/bot-turn/route.ts:109 | dropping the first vote keeps the keys unique and no later vote shares its key |
| Bots.UpsertAllSpec | app/api/room/bot-turn/route.ts:108-110 | upserting a batch with distinct keys keeps one vote per key, holds every batch row as the only vote with its key, and keeps the votes with other keys |
| Rooms.SameIdsUnique | app/api/room/night-action/route.ts:28 | record updates that keep every id in place keep ids unique |
| Rooms.DeathEventsOnePerDeath | app/api/room/night-action/route.ts:29 | with distinct deaths each death has exactly one event, and nobody else gets one |
| Rooms.LogOnePerDeath | app/api/room/vote/route.ts:29 | appending the death events of distinct deaths keeps the log and gives each death exactly one new event with its name and cause |
| Rooms.CupidonLink | app/api/room/night-action/route.ts:16-18 | a bond comes from a Cupidon action of the current night that carries both a non-empty target and a non-empty second lover |
| Rooms.CupidonLinkSole | app/api/room/night-action/route.ts:16-18 | a night with one Cupidon action bonds exactly its two lovers when both ids are non-empty, and nobody otherwise |
| Rooms.CupidonLinkContested | app/api/room/night-action/route.ts:16-18 | two Cupidon actions on one night bond nobody |
| Rooms.AdmitIdempotent | app/api/room/join/route.ts:16-17 | from at most one record for the user there is exactly one after admission, and a second admission changes nothing |
| Rooms.TallyWinner | lib/game-engine.ts:71-72 | the elimination as a specification: a unique top target, or none when there is no unique top |
| Rooms.TallyWinnerUnique | lib/game-engine.ts:71-72 | a unique top target is the elimination |
| Rooms.VoteVerdictSpec | app/api/room/vote/route.ts:19-27 | a unique top target dies first, named with its role, followed by its living partner; on a tie or without votes nobody dies and the only line is the tie line |
| Rooms.VoteCascadeAgrees | app/api/room/vote/route.ts:25 | with unique ids, looking the partner up among the living gives the same cascade as looking among all players |
| Rooms.NightSnapshotRevives | app/api/room/night-action/route.ts:30-31 | one living wolf, one living villager and one dead villager is a wolf win, but the snapshot of a night without deaths finds no winner |
| Rooms.VoteSnapshotKeepsDead | app/api/room/vote/route.ts:30 | after the vote players already dead stay dead, the voted-out die, and everyone else is unchanged |
| Rooms.LaterNightsWakeCupidon | app/api/room/vote/route.ts:34-36 | after a vote, a living Cupidon without a living Garde is the first role woken again |
| Rooms.AllAliveHolds | app/api/room/start/route.ts:21-22 | the start snapshot holds a role exactly when some player holds it |
| Rooms.JoinGuards | app/api/room/join/route.ts:7-18 | a join succeeds exactly with a non-blank name and code, a user id, a code matching once upper-cased, a lobby room and fewer than 12 players; a rejection is an error and changes nothing; a success changes only the players and returns the room's code and id |
| Rooms.JoinOncePerUser | app/api/room/join/route.ts:16-17 | a successful join keeps ids unique and leaves exactly one record for the user, and joining again changes nothing |
| Rooms.StartGuards | app/api/room/start/route.ts:9-18 | a missing user, another room, a non-host, fewer than 4 players and a role total different from the player count are rejected in that order, with nothing changed; start succeeds exactly when all guards pass |
| Rooms.StartDeals | app/api/room/start/route.ts:19-24 | on success player k gets pool entry k; the room moves to role_reveal on night 1 and day 1 with no completed role and the first night role any player holds awaited; one phase change for night 1 is logged; with non-negative counts each role is dealt its configured count |
| Rooms.StartedKeepsValid | app/api/room/start/route.ts:19-21 | dealing roles keeps player ids unique |
| Rooms.RevealGuarded | app/api/room/advance-reveal/route.ts:8-15 | a no-op unless the room is in role_reveal; otherwise only the status moves to night and one phase change tagged with the night number is logged |
| Rooms.NightReportRecords | app/api/room/night-action/route.ts:12-21 | the reporting role is appended to the completed list; a Cupidon bond sets the room's lovers and marks both lovers; without a bond the lovers stay |
| Rooms.NightReportHandsOver | app/api/room/night-action/route.ts:23-37 | while a role remains, only the status, the awaited role and the completed list change (besides the bond), and the response names the next role |
| Rooms.NightEndIsClose | app/api/room/night-action/route.ts:24-29 | when no role remains the night closes on top of the bonded store, resolved from the arrival snapshot and the room's earlier lovers, and the log gains exactly the death events of that resolution |
| Rooms.BondedKeeps | app/api/room/night-action/route.ts:15-21 | writing the lovers changes only the room's lovers and the players' lover flags, never an id or a liveness flag |
| Rooms.ResolutionDistinct | app/api/room/night-action/route.ts:25-27 | with a bond between two players, the night's deaths are distinct |
| Rooms.NightEndsKills | app/api/room/night-action/route.ts:28 | at the end of the night exactly the players alive on arrival and not among the deaths are alive |
| Rooms.NightEndsLogsEachDeath | app/api/room/night-action/route.ts:29 | the log keeps its entries and gains one per death; each death has exactly one new event, for this night, with the name from the arrival snapshot |
| Rooms.NightEndsRoom | app/api/room/night-action/route.ts:30-34 | the room ends exactly when the snapshot win check finds a winner, and otherwise shows the day summary; the day number advances, the night number stays, and the summary is the resolution's |
| Rooms.CloseVoteHostOnly | app/api/room/vote/route.ts:10-12 | a caller who is not the host gets a 403 and nothing changes |
| Rooms.CloseVoteReadsOnlyToday | app/api/room/vote/route.ts:13 | stores that agree on everything but the votes of other days close the vote alike |
| Rooms.CloseVoteOutcome | app/api/room/vote/route.ts:16-38 | the unique top target dies with its living partner, or on a tie nobody dies and the summary is the tie line; players already dead stay dead; the reported winner is the win check on the new players; with a winner the room ends; otherwise the next night begins with a reset completed list and summary and with the first living night role awaited, and the day number is unchanged; ids and vote keys stay unique |
| Rooms.BotNightOnlyWhenAwaited | app/api/room/bot-turn/route.ts:24-75 | a bot logs an action only while the room is in a night awaiting its role, and then logs exactly one action for the current night |
| Rooms.BotVotesOnePerBot | app/api/room/bot-turn/route.ts:87-110 | after the bots' round each cast vote is the only vote for its (day, voter) key, other votes are kept, and the store keeps one vote per key |
| Rooms.Store.Join | app/api/room/join/route.ts:5-19 | the join route's effect is the join step on the store |
| Rooms.Store.AdmitPlayer | app/api/room/join/route.ts:16-17 | a player record is inserted only when the user has none in the room, and nothing else changes |
| Rooms.Store.Start | app/api/room/start/route.ts:7-30 | the start route deals from a permutation of the configured pool, and its effect is the start step |
| Rooms.Store.BeginGame | app/api/room/start/route.ts:19-24 | the shuffled pool is a permutation of the configured one, and the store becomes the dealt, revealed store |
| Rooms.Store.OpenReveal | app/api/room/start/route.ts:22-24 | the room moves to role_reveal on night 1 and day 1, waking the first role held by a player, and one phase change is logged |
| Rooms.Store.UpdateRoles | app/api/room/start/route.ts:20 | each player with a role-map entry takes that role |
| Rooms.Store.RevealToNight | app/api/room/bot-turn/route.ts:12-21 | the guarded role_reveal to night move of the bots' advance_from_reveal, which responds ok |
| Rooms.Store.AdvanceReveal | app/api/room/advance-reveal/route.ts:5-16 | the advance-reveal route's effect is the reveal step with its own message, and it responds ok |
| Rooms.Store.ApplyDeaths | app/api/room/night-action/route.ts:28-29 | the deaths are marked dead and one death event per death is appended, in order |
| Rooms.Store.LinkLovers | app/api/room/night-action/route.ts:15-21 | the store after recording Cupidon's bond |
| Rooms.Store.ReportNightAction | app/api/room/night-action/route.ts:7-38 | the night-action route's effect is the night-action step |
| Rooms.Store.CloseNight | app/api/room/night-action/route.ts:24-35 | the night end's effect is the night-closing step |
| Rooms.Store.VoteDeaths | app/api/room/vote/route.ts:19-27 | the pushed deaths and lines are the vote verdict of the tally |
| Rooms.Store.TallyDay | app/api/room/vote/route.ts:13-27 | today's ballots give the verdict of the tally winner: deaths and summary as the vote route writes them |
| Rooms.Store.CloseVote | app/api/room/vote/route.ts:7-39 | the vote route's effect is the close-vote step |
| Rooms.Store.BotNightAct | app/api/room/bot-turn/route.ts:24-84 | when awaited, the bot's action is legal for its role, and the effect is the bot night step |
| Rooms.Store.BotVoteRound | app/api/room/bot-turn/route.ts:87-119 | during a day vote every cast vote is legal and every eligible bot votes; the effect is the bot vote step |
| Rooms.Store.BotTurn | app/api/room/bot-turn/route.ts:7-122 | an unknown action is a 400 that changes nothing; advance_from_reveal answers Ok with the reveal step; night_act answers Ok with the bot night step for some choice, legal when the bot's role is awaited; vote answers Ok with the bot vote step for some rows with unique keys, legal and covering every eligible bot during the day vote |

## Left out

- The Supabase client, authentication, cookies and HTTP handling. The store is an in-memory `Store` with one room; a room id or code that does not match it counts as a missing room.
- The fetch chaining from bot-turn to night-action and vote (app/api/room/bot-turn/route.ts:78-81, 113-116), and the image-generation fetch of start (app/api/room/start/route.ts:25-28). These are network calls.
- Image generation, icons, canvas cards, React pages and components, configuration files: presentation only.
- `petiteFilleSpyCatch` (floating-point probability, not called by the routes) and `PHASE_LABELS` (display text).
- The create and tester routes. They repeat code generation and start logic with inserts only, so the model has no room-creation step.
- Uniformity of the shuffle and of room codes: statistical. Only the permutation and alphabet properties are modelled.
- Summary lines are a datatype of line kinds carrying the player name, not the French strings. In the vote summary a missing player's name and role become `None`; the distinction between `undefined` and `null` is not modelled.
- The 500 "Data error" branch of the vote route: the in-memory store always returns its lists.
- Query results are returned in store order. The tally's counts are a `map`, so the model leaves out JavaScript's enumeration order for numeric-looking keys and object prototype keys such as `__proto__`.
- Upper-casing covers ASCII letters only. Other characters that JavaScript upper-cases are left unchanged.
- The request's role is always one of the eight role names. A missing or unknown role string in a night-action request is not modelled.
- A joined player takes the database defaults of the table: alive, not a lover, not a bot, no role. The player's `is_bot` flag is read by bot-turn but is not part of the `Player` type in types.ts; the model includes it.
- Player ids are never the empty string. They are database UUIDs, and a bond stores only non-empty ids. The cascade test `if (c)` in the night resolution and in the vote route rejects an empty id, but the model tests only whether a cascade is present. The two differ only when a living player has the empty id.
- Rooms.Store.Start, Rooms.Store.BeginGame, Rooms.Store.BotNightAct, Rooms.Store.BotVoteRound: the shuffled pool, the bot's choice and the cast votes are ghost outputs, so these contracts are about the store's new state rather than about a returned value.
- Rooms.Store.BotTurn: for night_act and vote the bot's choice and ballots are ghost values, so the contract says the new state is the step for some legal choice or some legal set of ballots, not which one.
- Concurrency between routes: each route runs on its own, without interleaving.
- Room fields the routes do not use in the modelled rules (witch potion flags, `chasseur_used`, timestamps, avatar and card URLs) are not modelled.
