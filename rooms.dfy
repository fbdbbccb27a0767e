/**
  The room phase machine, one method per API route, over an in-memory store that holds
  one room, its players, its night actions, its votes and its event log. Responses are
  values: success payloads and the HTTP error statuses the routes return.
 */
module Rooms {
  import opened Types
  import opened Engine
  import opened Text
  import opened Bots

  datatype ErrorKind =
    | AuthRequired
    | AuthFailed
    | RoomNotFound
    | HostOnly
    | TooFewPlayers
    | RoleCountMismatch(roles: int, players: int)
    | NameRequired
    | CodeRequired
    | AlreadyStarted
    | RoomFull
    | UnknownAction

  datatype Response =
    | Ok
    | NextTurn(role: RoleName)
    | NightEnded(summary: seq<SummaryLine>, winner: Option<Winner>)
    | VoteClosed(summary: seq<SummaryLine>, winner: Option<Winner>)
    | Joined(code: string, roomId: Id)
    | Error(status: int, kind: ErrorKind)

  // ---------------------------------------------------------------------------
  // Record updates

  /** `update({ is_alive: false }).in("id", ids)` */
  function MarkDead(players: seq<Player>, ids: seq<Id>): (r: seq<Player>)
    ensures |r| == |players|
    ensures forall k :: 0 <= k < |players| ==>
              r[k] == if players[k].id in ids then players[k].(isAlive := false) else players[k]
  {
    seq(|players|, k requires 0 <= k < |players| =>
      if players[k].id in ids then players[k].(isAlive := false) else players[k])
  }

  /** `update({ is_lover: true }).in("id", [l1, l2])` */
  function MarkLovers(players: seq<Player>, bond: (Id, Id)): (r: seq<Player>)
    ensures |r| == |players|
    ensures forall k :: 0 <= k < |players| ==>
              r[k] == if players[k].id == bond.0 || players[k].id == bond.1
                      then players[k].(isLover := true) else players[k]
  {
    seq(|players|, k requires 0 <= k < |players| =>
      if players[k].id == bond.0 || players[k].id == bond.1 then players[k].(isLover := true) else players[k])
  }

  /** The night-end snapshot: alive exactly when not among this night's deaths. */
  function NightSnapshot(players: seq<Player>, deaths: seq<Id>): (r: seq<Player>)
    ensures |r| == |players|
    ensures forall k :: 0 <= k < |players| ==> r[k] == players[k].(isAlive := players[k].id !in deaths)
  {
    seq(|players|, k requires 0 <= k < |players| => players[k].(isAlive := players[k].id !in deaths))
  }

  /** The start-time snapshot: every player alive, with the role just dealt. */
  function AllAlive(players: seq<Player>): (r: seq<Player>)
    ensures |r| == |players|
    ensures forall k :: 0 <= k < |players| ==> r[k] == players[k].(isAlive := true)
  {
    seq(|players|, k requires 0 <= k < |players| => players[k].(isAlive := true))
  }

  function IdsOf(players: seq<Player>): (ids: seq<Id>)
    ensures |ids| == |players| && forall k :: 0 <= k < |players| ==> ids[k] == players[k].id
  {
    seq(|players|, k requires 0 <= k < |players| => players[k].id)
  }

  /** Record updates that keep every id in place keep the ids unique. */
  lemma SameIdsUnique(a: seq<Player>, b: seq<Player>)
    requires UniqueIds(a)
    requires |a| == |b| && forall k :: 0 <= k < |a| ==> a[k].id == b[k].id
    ensures UniqueIds(b)
  {
    assert forall i, j :: 0 <= i < j < |b| ==> b[i].id == a[i].id && b[j].id == a[j].id;
  }

  lemma UniqueIdsDistinct(players: seq<Player>)
    requires UniqueIds(players)
    ensures Distinct(IdsOf(players))
  {
  }

  /** `p?.name`: the name of the first player with the id, if any. */
  function NameOpt(players: seq<Player>, id: Id): Option<string>
  {
    match FindPlayer(players, id)
    case Some(p) => Some(p.name)
    case None => None
  }

  /** `p?.role`; a player without a role and a missing player both give `None`. */
  function RoleOpt(players: seq<Player>, id: Id): Option<RoleName>
  {
    match FindPlayer(players, id)
    case Some(p) => p.role
    case None => None
  }

  /** One death event per id, in order. */
  function DeathEvents(time: EventTime, deaths: seq<Id>, players: seq<Player>, cause: DeathCause)
    : (r: seq<GameEvent>)
    ensures |r| == |deaths|
    ensures forall k :: 0 <= k < |deaths| ==> r[k] == Death(time, deaths[k], NameOpt(players, deaths[k]), cause)
  {
    seq(|deaths|, k requires 0 <= k < |deaths| => Death(time, deaths[k], NameOpt(players, deaths[k]), cause))
  }

  /** Every death has exactly one death event, and the events name nobody else. */
  lemma DeathEventsOnePerDeath(time: EventTime, deaths: seq<Id>, players: seq<Player>, cause: DeathCause, d: Id)
    requires Distinct(deaths)
    ensures var ev := DeathEvents(time, deaths, players, cause);
            && (d in deaths ==> exists k :: (0 <= k < |ev| && ev[k].playerId == d
                                && forall m :: 0 <= m < |ev| && ev[m].playerId == d ==> m == k))
            && (d !in deaths ==> forall m :: 0 <= m < |ev| ==> ev[m].playerId != d)
  {
    var ev := DeathEvents(time, deaths, players, cause);
    if d in deaths {
      var k :| 0 <= k < |deaths| && deaths[k] == d;
      assert ev[k].playerId == d;
    }
  }

  function IsNight(n: int): NightAction -> bool
  {
    (a: NightAction) => a.night == n
  }

  function IsCupidonOf(n: int): NightAction -> bool
  {
    (a: NightAction) => a.night == n && a.role == Cupidon
  }

  function IsDay(d: int): Vote -> bool
  {
    (v: Vote) => v.day == d
  }

  /** The night actions of night `n`. */
  function ActionsOfNight(actions: seq<NightAction>, n: int): seq<NightAction>
  {
    Filter(actions, IsNight(n))
  }

  /** The votes of day `d`. */
  function VotesOfDay(votes: seq<Vote>, d: int): seq<Vote>
  {
    Filter(votes, IsDay(d))
  }

  /**
    The bond a Cupidon report creates: the night's Cupidon action, when it is the only
    one (`.single()`), carries a truthy target and a truthy second lover.
   */
  function CupidonLink(actions: seq<NightAction>, n: int): (link: Option<(Id, Id)>)
    ensures link.Some? ==> exists a :: a in actions && a.night == n && a.role == Cupidon
                             && a.targetId == Some(link.value.0) && a.lover2 == Some(link.value.1)
                             && link.value.0 != "" && link.value.1 != ""
  {
    var found := Filter(actions, IsCupidonOf(n));
    if |found| == 1 && Truthy(found[0].targetId) && Truthy(found[0].lover2)
    then
      assert found[0] in found;
      Some((found[0].targetId.value, found[0].lover2.value))
    else None
  }

  /**
    A night with a sole Cupidon action bonds its two lovers when both ids are non-empty,
    and bonds nobody otherwise.
   */
  lemma CupidonLinkSole(actions: seq<NightAction>, n: int, i: nat)
    requires i < |actions| && actions[i].night == n && actions[i].role == Cupidon
    requires forall j :: 0 <= j < |actions| && j != i ==> !(actions[j].night == n && actions[j].role == Cupidon)
    ensures Truthy(actions[i].targetId) && Truthy(actions[i].lover2) ==>
              CupidonLink(actions, n) == Some((actions[i].targetId.value, actions[i].lover2.value))
    ensures !(Truthy(actions[i].targetId) && Truthy(actions[i].lover2)) ==> CupidonLink(actions, n) == None
  {
    FilterSole(actions, IsCupidonOf(n), i);
  }

  /** Two Cupidon actions on the same night bond nobody (`.single()` fails). */
  lemma CupidonLinkContested(actions: seq<NightAction>, n: int, i: nat, j: nat)
    requires i < j < |actions|
    requires actions[i].night == n && actions[i].role == Cupidon
    requires actions[j].night == n && actions[j].role == Cupidon
    ensures CupidonLink(actions, n) == None
  {
    FilterPair(actions, IsCupidonOf(n), i, j);
  }

  function VoterIds(votes: seq<Vote>): set<Id>
  {
    set v | v in votes :: v.voterId
  }

  /** How many players carry the user id (what `.single()` on the existing-player query sees). */
  function CountWithUser(players: seq<Player>, userId: Id): nat
  {
    if players == [] then 0
    else (if players[|players| - 1].userId == userId then 1 else 0) + CountWithUser(players[..|players| - 1], userId)
  }

  /** The admission insert: a new living, loverless, human player unless exactly one player has the user id. */
  function Admit(players: seq<Player>, userId: Id, name: string, freshId: Id): seq<Player>
  {
    if CountWithUser(players, userId) == 1 then players
    else players + [Player(freshId, userId, name, None, true, false, false)]
  }

  lemma CountWithUserAppend(players: seq<Player>, p: Player, userId: Id)
    ensures CountWithUser(players + [p], userId) == CountWithUser(players, userId) + (if p.userId == userId then 1 else 0)
  {
    assert (players + [p])[..|players|] == players;
  }

  /**
    Joining is idempotent per user: from at most one record for the user there is exactly
    one afterwards, and joining again changes nothing.
   */
  lemma AdmitIdempotent(players: seq<Player>, userId: Id, name: string, freshId: Id, name2: string, freshId2: Id)
    requires CountWithUser(players, userId) <= 1
    ensures CountWithUser(Admit(players, userId, name, freshId), userId) == 1
    ensures Admit(Admit(players, userId, name, freshId), userId, name2, freshId2) == Admit(players, userId, name, freshId)
  {
    if CountWithUser(players, userId) != 1 {
      CountWithUserAppend(players, Player(freshId, userId, name, None, true, false, false), userId);
    }
  }

  /** The vote tally's elimination, as a specification: the unique most-voted target, if any. */
  ghost function TallyWinner(votes: seq<Vote>): (r: Option<Id>)
    ensures r.Some? ==> UniqueTop(votes, r.value)
    ensures r.None? ==> forall t :: !UniqueTop(votes, t)
  {
    if exists t :: UniqueTop(votes, t) then
      var t :| UniqueTop(votes, t);
      Some(t)
    else None
  }

  lemma TallyWinnerUnique(votes: seq<Vote>, t: Id)
    requires UniqueTop(votes, t)
    ensures TallyWinner(votes) == Some(t)
  {
    var w := TallyWinner(votes).value;
    assert w != t ==> VoteCount(votes, w) < VoteCount(votes, t) && VoteCount(votes, t) < VoteCount(votes, w);
  }

  /**
    The vote route's deaths and summary for an elimination: the eliminated player, then the
    partner the cascade finds among the living; a falsy elimination is reported as a tie.
   */
  function VoteVerdict(eliminated: Option<Id>, players: seq<Player>, lovers: Option<(Id, Id)>)
    : (seq<Id>, seq<SummaryLine>)
  {
    if Truthy(eliminated) then
      var e := eliminated.value;
      var line := Eliminated(NameOpt(players, e), RoleOpt(players, e));
      var c := LoverCascade(e, AliveOf(players), lovers);
      if c.Some? then ([e, c.value], [line, VoteHeartbreak(NameOpt(players, c.value))])
      else ([e], [line])
    else ([], [Tie])
  }

  /**
    A unique top target dies first, named with its role, followed by its living partner;
    on a tie or without votes nobody dies and the only line is the tie line.
   */
  lemma VoteVerdictSpec(votes: seq<Vote>, players: seq<Player>, lovers: Option<(Id, Id)>)
    requires UniqueIds(players)
    ensures var v := VoteVerdict(TallyWinner(votes), players, lovers);
            var w := TallyWinner(votes);
            && (Truthy(w) ==>
                  && v.0 == [w.value] + OptSeq(LoverCascade(w.value, players, lovers))
                  && v.1[0] == Eliminated(NameOpt(players, w.value), RoleOpt(players, w.value))
                  && |v.1| == |v.0|)
            && ((IsTie(votes) || votes == []) ==> v == ([], [Tie]))
  {
    var w := TallyWinner(votes);
    if Truthy(w) {
      VoteCascadeAgrees(w.value, players, lovers);
    }
    if IsTie(votes) {
      var a, b :| a != b && IsTop(votes, a) && IsTop(votes, b);
      forall t ensures !UniqueTop(votes, t) {
        assert a != t || b != t;
      }
    }
    if votes == [] {
      forall t ensures !UniqueTop(votes, t) {
        assert VoteCount(votes, t) == 0;
      }
    }
  }

  /**
    Looking the partner up among the living players rather than all of them makes no
    difference when ids are unique: the cascade only names a living partner either way.
   */
  lemma VoteCascadeAgrees(victim: Id, players: seq<Player>, lovers: Option<(Id, Id)>)
    requires UniqueIds(players)
    ensures LoverCascade(victim, AliveOf(players), lovers) == LoverCascade(victim, players, lovers)
  {
    FilterKeepsUniqueIds(players, IsLiving);
    CascadeIsLivingPartner(victim, players, lovers);
    CascadeIsLivingPartner(victim, AliveOf(players), lovers);
  }

  /**
    The night-end snapshot revives earlier casualties: one living wolf, one living villager
    and one villager killed on an earlier night is a wolf win, but the snapshot of a night
    without deaths counts two villagers and finds no winner.
   */
  lemma NightSnapshotRevives()
    ensures var ps := [Player("w", "uw", "W", Some(LoupGarou), true, false, false),
                       Player("a", "ua", "A", Some(Villageois), true, false, false),
                       Player("b", "ub", "B", Some(Villageois), false, false, false)];
            && CheckWinCondition(ps, None) == Some(Wolves)
            && CheckWinCondition(NightSnapshot(ps, []), None) == None
  {
    var ps := [Player("w", "uw", "W", Some(LoupGarou), true, false, false),
               Player("a", "ua", "A", Some(Villageois), true, false, false),
               Player("b", "ub", "B", Some(Villageois), false, false, false)];
    var snap := NightSnapshot(ps, []);
    assert snap == [ps[0], ps[1], ps[2].(isAlive := true)];
    WinOutcome(ps, None);
    WinOutcome(snap, None);
    assert LivingWolves(ps[2..]) == 0 && LivingOthers(ps[2..]) == 0 by {
      assert ps[2..][1..] == [];
    }
    assert LivingWolves(ps[1..]) == 0 && LivingOthers(ps[1..]) == 1 by {
      assert ps[1..][1..] == ps[2..];
    }
    assert LivingWolves(snap[2..]) == 0 && LivingOthers(snap[2..]) == 1 by {
      assert snap[2..][1..] == [];
    }
    assert LivingWolves(snap[1..]) == 0 && LivingOthers(snap[1..]) == 2 by {
      assert snap[1..][1..] == snap[2..];
    }
  }

  /** Players already dead stay dead in the vote route's snapshot, and the voted-out die. */
  lemma VoteSnapshotKeepsDead(players: seq<Player>, deaths: seq<Id>, k: nat)
    requires k < |players|
    ensures !players[k].isAlive ==> !MarkDead(players, deaths)[k].isAlive
    ensures players[k].id in deaths ==> !MarkDead(players, deaths)[k].isAlive
    ensures players[k].id !in deaths ==> MarkDead(players, deaths)[k] == players[k]
  {
  }

  /** On every later night the sequencer, starting from no completed role, wakes a living Cupidon again (right after a living guard). */
  lemma LaterNightsWakeCupidon(alive: seq<Player>)
    requires Holds(alive, Cupidon) && !Holds(alive, Garde)
    ensures NextNightRole([], alive) == Some(Cupidon)
  {
  }

  /** The first role woken after a start: the sequencer sees every player alive. */
  lemma AllAliveHolds(players: seq<Player>, r: RoleName)
    ensures Holds(AllAlive(players), r) <==> exists p :: p in players && p.role == Some(r)
  {
    if p :| p in players && p.role == Some(r) {
      var k :| 0 <= k < |players| && players[k] == p;
      assert AllAlive(players)[k] in AllAlive(players);
    }
  }


  // ---------------------------------------------------------------------------
  // The store's contents and the effect of each route on them

  /** Everything the routes read and write: the room, its players, night actions, votes and event log. */
  datatype StoreState = StoreState(
    room: Room,
    players: seq<Player>,
    nightActions: seq<NightAction>,
    votes: seq<Vote>,
    events: seq<GameEvent>)

  /** The store's keys: player ids, and votes per (day, voter). */
  ghost predicate ValidState(s: StoreState)
  {
    UniqueIds(s.players) && UniqueVoteKeys(s.votes)
  }

  /** join */
  function JoinStep(s: StoreState, name: Option<string>, code: Option<string>, userId: Option<Id>, freshId: Id)
    : (StoreState, Response)
  {
    if name.None? || Trim(name.value) == "" then (s, Error(400, NameRequired))
    else if code.None? || Trim(code.value) == "" then (s, Error(400, CodeRequired))
    else if !Truthy(userId) then (s, Error(401, AuthFailed))
    else if ToUpper(code.value) != s.room.code then (s, Error(404, RoomNotFound))
    else if s.room.status != Lobby then (s, Error(400, AlreadyStarted))
    else if |s.players| >= 12 then (s, Error(400, RoomFull))
    else (s.(players := Admit(s.players, userId.value, Trim(name.value), freshId)), Joined(s.room.code, s.room.id))
  }

  /** The per-player role updates: each player with an entry in the role map takes that role. */
  function DealRoles(players: seq<Player>, roleMap: map<Id, Option<RoleName>>): (r: seq<Player>)
    ensures |r| == |players|
    ensures forall k :: 0 <= k < |players| ==>
              r[k] == if players[k].id in roleMap then players[k].(role := roleMap[players[k].id]) else players[k]
  {
    seq(|players|, k requires 0 <= k < |players| =>
      if players[k].id in roleMap then players[k].(role := roleMap[players[k].id]) else players[k])
  }

  /** start, given the shuffled pool the roles are dealt from. */
  function StartStep(s: StoreState, roomId: Id, userId: Option<Id>, pool: seq<RoleName>): (StoreState, Response)
  {
    var total := ConfigTotal(s.room.config);
    if !Truthy(userId) then (s, Error(401, AuthRequired))
    else if roomId != s.room.id then (s, Error(404, RoomNotFound))
    else if s.room.hostId != userId.value then (s, Error(403, HostOnly))
    else if |s.players| < 4 then (s, Error(400, TooFewPlayers))
    else if total != |s.players| then (s, Error(400, RoleCountMismatch(total, |s.players|)))
    else (Started(s, pool), Ok)
  }

  /** The store once the roles are dealt from `pool` and the room has moved to the reveal. */
  function Started(s: StoreState, pool: seq<RoleName>): StoreState
  {
    var dealt := DealRoles(s.players, RoleMap(IdsOf(s.players), pool));
    s.(players := dealt,
       room := s.room.(status := RoleReveal, nightNumber := 1, currentPhaseRole := NextNightRole([], AllAlive(dealt)),
                       completedNightRoles := [], dayNumber := 1),
       events := s.events + [PhaseChange(1, GameStarts)])
  }

  /** advance-reveal and the bots' advance_from_reveal, which differ only in the event message. */
  function RevealStep(s: StoreState, roomId: Id, message: PhaseMessage): StoreState
  {
    if roomId != s.room.id || s.room.status != RoleReveal then s
    else s.(room := s.room.(status := Night), events := s.events + [PhaseChange(s.room.nightNumber, message)])
  }

  /** The bond recorded when Cupidon reports, if any. */
  function ReportedLink(s: StoreState, role: RoleName): Option<(Id, Id)>
  {
    if role == Cupidon then CupidonLink(s.nightActions, s.room.nightNumber) else None
  }

  /** The store once the reported bond, if any, is written to the room and to both players. */
  function Bonded(s: StoreState, role: RoleName): StoreState
  {
    var link := ReportedLink(s, role);
    if link.Some? then s.(room := s.room.(lovers := link), players := MarkLovers(s.players, link.value))
    else s
  }

  /** This night's resolution, from the room and players as they were when the report arrived. */
  function NightResolution(s: StoreState): NightResult
  {
    NightOutcome(ActionsOfNight(s.nightActions, s.room.nightNumber), s.players, s.room.lovers)
  }

  /** night-action */
  function NightActionStep(s: StoreState, roomId: Id, role: RoleName): (StoreState, Response)
  {
    if roomId != s.room.id then (s, Error(404, RoomNotFound))
    else
      var completed := s.room.completedNightRoles + [role];
      var b := Bonded(s, role);
      var next := NextNightRole(completed, AliveOf(s.players));
      if next.Some? then
        (b.(room := b.room.(status := Night, currentPhaseRole := next, completedNightRoles := completed)),
         NextTurn(next.value))
      else NightClosed(s.room, s.players, b, completed)
  }

  /**
    The end of a night: resolve it from the room and players as they were when the report
    arrived, apply the deaths to the current store `b`, log them, and end the game or move
    to the day summary.
   */
  function NightClosed(room0: Room, snapshot: seq<Player>, b: StoreState, completed: seq<RoleName>)
    : (StoreState, Response)
  {
    var out := NightOutcome(ActionsOfNight(b.nightActions, room0.nightNumber), snapshot, room0.lovers);
    var winner := CheckWinCondition(NightSnapshot(snapshot, out.deaths), room0.lovers);
    (b.(players := MarkDead(b.players, out.deaths),
        events := b.events + DeathEvents(AtNight(room0.nightNumber), out.deaths, snapshot, DiedAtNight),
        room := b.room.(status := if winner.Some? then Ended else DaySummary,
                        winner := if winner.Some? then winner else b.room.winner,
                        nightSummary := out.summary,
                        completedNightRoles := completed,
                        dayNumber := room0.dayNumber + 1)),
     NightEnded(out.summary, winner))
  }

  /** The deaths and summary of the day vote. */
  ghost function DayVerdict(s: StoreState): (seq<Id>, seq<SummaryLine>)
  {
    VoteVerdict(TallyWinner(VotesOfDay(s.votes, s.room.dayNumber)), s.players, s.room.lovers)
  }

  /** The room after a vote: ended with a winner, or the next night with a fresh sequence. */
  function AfterVote(r: Room, updated: seq<Player>, winner: Option<Winner>): Room
  {
    if winner.Some? then r.(status := Ended, winner := winner)
    else r.(status := Night, nightNumber := r.nightNumber + 1, currentPhaseRole := NextNightRole([], AliveOf(updated)),
            completedNightRoles := [], nightSummary := [])
  }

  /** vote */
  ghost function CloseVoteStep(s: StoreState, roomId: Id, user: Option<Id>): (StoreState, Response)
  {
    if roomId != s.room.id || user.None? || s.room.hostId != user.value then (s, Error(403, HostOnly))
    else
      var verdict := DayVerdict(s);
      var updated := MarkDead(s.players, verdict.0);
      var winner := CheckWinCondition(updated, s.room.lovers);
      (s.(players := updated,
          events := s.events + DeathEvents(AtDay(s.room.dayNumber), verdict.0, s.players, VotedOut),
          room := AfterVote(s.room, updated, winner)),
       VoteClosed(verdict.1, winner))
  }

  /** The bot is the one awaited: the room is in a night and waits for the bot's role. */
  predicate BotAwaited(s: StoreState, roomId: Id, role: RoleName)
  {
    roomId == s.room.id && s.room.status == Night && s.room.currentPhaseRole == Some(role)
  }

  /** bot-turn night_act, given the bot's choice. */
  function BotNightStep(s: StoreState, roomId: Id, botId: Id, role: RoleName, c: BotChoice): StoreState
  {
    if !BotAwaited(s, roomId, role) then s
    else s.(nightActions := s.nightActions + [BotAction(s.room.nightNumber, role, botId, c)])
  }

  /** The voters who already voted on the room's current day. */
  function VotedToday(s: StoreState): set<Id>
  {
    VoterIds(VotesOfDay(s.votes, s.room.dayNumber))
  }

  /** bot-turn vote (before the chained close of the vote), given the rows the bots cast. */
  function BotVoteStep(s: StoreState, roomId: Id, rows: seq<Vote>): StoreState
  {
    if roomId != s.room.id || s.room.status != DayVote then s
    else if |rows| > 0 then s.(votes := UpsertAll(s.votes, rows))
    else s
  }

  // ---------------------------------------------------------------------------
  // Properties of the routes

  /**
    Join admits only a non-blank name and code, a truthy user, a code matching the room's
    once upper-cased, a room in the lobby and fewer than 12 players; a rejection changes
    nothing, and an admission changes nothing but the players.
   */
  lemma JoinGuards(s: StoreState, name: Option<string>, code: Option<string>, userId: Option<Id>, freshId: Id)
    ensures var (s', resp) := JoinStep(s, name, code, userId, freshId);
            && (resp.Joined? <==>
                  && name.Some? && Trim(name.value) != ""
                  && code.Some? && Trim(code.value) != ""
                  && Truthy(userId)
                  && ToUpper(code.value) == s.room.code
                  && s.room.status == Lobby
                  && |s.players| < 12)
            && (!resp.Joined? ==> s' == s && resp.Error?)
            && (resp.Joined? ==> s' == s.(players := s'.players) && resp == Joined(s.room.code, s.room.id))
  {
    if name.None? || Trim(name.value) == "" {
    } else if code.None? || Trim(code.value) == "" {
    } else if !Truthy(userId) {
    } else if ToUpper(code.value) != s.room.code {
    } else {
    }
  }

  /**
    A user joins at most once: starting from no more than one record for the user, an
    admission leaves exactly one, a second join changes nothing, and ids stay unique.
   */
  lemma JoinOncePerUser(s: StoreState, name: string, code: string, userId: Id, freshId: Id, freshId2: Id)
    requires ValidState(s) && !HasId(s.players, freshId)
    requires CountWithUser(s.players, userId) <= 1
    requires JoinStep(s, Some(name), Some(code), Some(userId), freshId).1.Joined?
    ensures var s1 := JoinStep(s, Some(name), Some(code), Some(userId), freshId).0;
            && ValidState(s1)
            && CountWithUser(s1.players, userId) == 1
            && JoinStep(s1, Some(name), Some(code), Some(userId), freshId2).0 == s1
  {
    JoinGuards(s, Some(name), Some(code), Some(userId), freshId);
    var s1 := JoinStep(s, Some(name), Some(code), Some(userId), freshId).0;
    assert s1 == s.(players := Admit(s.players, userId, Trim(name), freshId));
    AdmitIdempotent(s.players, userId, Trim(name), freshId, Trim(name), freshId2);
    var joiner := Player(freshId, userId, Trim(name), None, true, false, false);
    assert UniqueIds(s1.players) by {
      assert forall p :: p in s.players ==> p.id != joiner.id;
    }
    JoinGuards(s1, Some(name), Some(code), Some(userId), freshId2);
  }

  /** Start's guards, in order: a rejection changes nothing and no role is dealt. */
  lemma StartGuards(s: StoreState, roomId: Id, userId: Option<Id>, pool: seq<RoleName>)
    ensures var (s', resp) := StartStep(s, roomId, userId, pool);
            && (!Truthy(userId) ==> resp == Error(401, AuthRequired))
            && (Truthy(userId) && roomId != s.room.id ==> resp == Error(404, RoomNotFound))
            && (Truthy(userId) && roomId == s.room.id && s.room.hostId != userId.value ==> resp == Error(403, HostOnly))
            && (Truthy(userId) && roomId == s.room.id && s.room.hostId == userId.value && |s.players| < 4 ==>
                  resp == Error(400, TooFewPlayers))
            && (Truthy(userId) && roomId == s.room.id && s.room.hostId == userId.value && |s.players| >= 4
                && ConfigTotal(s.room.config) != |s.players| ==>
                  resp == Error(400, RoleCountMismatch(ConfigTotal(s.room.config), |s.players|)))
            && (resp != Ok ==> s' == s)
            && (resp == Ok <==> (Truthy(userId) && roomId == s.room.id && s.room.hostId == userId.value
                                 && |s.players| >= 4 && ConfigTotal(s.room.config) == |s.players|))
  {
  }

  lemma StartedKeepsValid(s: StoreState, pool: seq<RoleName>)
    requires ValidState(s)
    ensures ValidState(Started(s, pool))
  {
    SameIdsUnique(s.players, Started(s, pool).players);
  }

  /**
    A successful start deals pool entry k to player k, moves the room to role_reveal on
    night 1 and day 1 with an empty completed list, wakes first the first night-order role
    any player holds, and logs one phase change for night 1; with no negative count each
    role is dealt exactly as often as configured.
   */
  lemma StartDeals(s: StoreState, roomId: Id, userId: Option<Id>, pool: seq<RoleName>)
    requires ValidState(s)
    requires multiset(pool) == multiset(PoolOf(s.room.config))
    requires StartStep(s, roomId, userId, pool).1 == Ok
    ensures var s' := StartStep(s, roomId, userId, pool).0;
            && ValidState(s')
            && |s'.players| == |s.players| <= |pool|
            && (forall k :: 0 <= k < |s.players| ==> s'.players[k] == s.players[k].(role := Some(pool[k])))
            && s'.room == s.room.(status := RoleReveal, nightNumber := 1, dayNumber := 1, completedNightRoles := [],
                                  currentPhaseRole := FirstPending(NightOrder, [], AllAlive(s'.players)))
            && s'.events == s.events + [PhaseChange(1, GameStarts)]
            && s'.nightActions == s.nightActions && s'.votes == s.votes
            && ((forall i :: 0 <= i < |s.room.config| ==> s.room.config[i].count >= 0) ==>
                  |pool| == |s.players| && forall r :: multiset(pool)[r] == RoleCount(s.room.config, r))
  {
    var ids := IdsOf(s.players);
    PoolCoversTotal(s.room.config);
    assert |pool| == |multiset(pool)| == |PoolOf(s.room.config)|;
    UniqueIdsDistinct(s.players);
    RoleMapSpec(ids, pool);
    var s' := StartStep(s, roomId, userId, pool).0;
    SameIdsUnique(s.players, s'.players);
    forall r ensures multiset(pool)[r] == RoleCount(s.room.config, r) {
      PoolMultiplicity(s.room.config, r);
    }
  }

  /** The reveal step is a no-op unless the room is in role_reveal; otherwise only the status moves to night, with one event. */
  lemma RevealGuarded(s: StoreState, roomId: Id, message: PhaseMessage)
    ensures var s' := RevealStep(s, roomId, message);
            && (roomId != s.room.id || s.room.status != RoleReveal ==> s' == s)
            && (roomId == s.room.id && s.room.status == RoleReveal ==>
                  && s'.room == s.room.(status := Night)
                  && s'.players == s.players && s'.nightActions == s.nightActions && s'.votes == s.votes
                  && s'.events == s.events + [PhaseChange(s.room.nightNumber, message)])
  {
  }

  /**
    A night report appends the role to the completed list; a Cupidon report whose action
    names both lovers records the bond and marks both lovers.
   */
  lemma NightReportRecords(s: StoreState, roomId: Id, role: RoleName)
    requires roomId == s.room.id
    ensures var s' := NightActionStep(s, roomId, role).0;
            && s'.room.completedNightRoles == s.room.completedNightRoles + [role]
            && s'.nightActions == s.nightActions && s'.votes == s.votes
            && (ReportedLink(s, role).Some? ==>
                  var bond := ReportedLink(s, role).value;
                  && s'.room.lovers == Some(bond)
                  && forall k :: 0 <= k < |s.players| && (s.players[k].id == bond.0 || s.players[k].id == bond.1) ==>
                       s'.players[k].isLover)
            && (ReportedLink(s, role).None? ==> s'.room.lovers == s.room.lovers)
  {
  }

  /** While a role remains, the report writes only the status, the awaited role and the completed list (and the bond). */
  lemma NightReportHandsOver(s: StoreState, roomId: Id, role: RoleName)
    requires roomId == s.room.id
    requires NextNightRole(s.room.completedNightRoles + [role], AliveOf(s.players)).Some?
    ensures var (s', resp) := NightActionStep(s, roomId, role);
            var b := Bonded(s, role);
            var next := NextNightRole(s.room.completedNightRoles + [role], AliveOf(s.players));
            && resp == NextTurn(next.value)
            && s' == b.(room := b.room.(status := Night, currentPhaseRole := next,
                                        completedNightRoles := s.room.completedNightRoles + [role]))
            && s'.events == s.events
  {
  }

  /**
    When no role remains, the report closes the night on top of the bonded store, resolving
    it from the room and players as they were on arrival; the bond changes neither liveness,
    ids, the log nor the room's other fields.
   */
  lemma NightEndIsClose(s: StoreState, roomId: Id, role: RoleName)
    requires roomId == s.room.id
    requires NextNightRole(s.room.completedNightRoles + [role], AliveOf(s.players)).None?
    ensures NightActionStep(s, roomId, role)
            == NightClosed(s.room, s.players, Bonded(s, role), s.room.completedNightRoles + [role])
    ensures NightActionStep(s, roomId, role).0.events
            == s.events + DeathEvents(AtNight(s.room.nightNumber), NightResolution(s).deaths, s.players, DiedAtNight)
  {
    BondedKeeps(s, role);
  }

  /** Writing the bond touches only the room's lovers and the players' lover flags. */
  lemma BondedKeeps(s: StoreState, role: RoleName)
    ensures var b := Bonded(s, role);
            && b.events == s.events && b.nightActions == s.nightActions && b.votes == s.votes
            && b.room == s.room.(lovers := b.room.lovers)
            && |b.players| == |s.players|
            && forall k :: 0 <= k < |s.players| ==>
                 b.players[k].id == s.players[k].id && b.players[k].isAlive == s.players[k].isAlive
  {
  }

  /**
    At the end of the night every death of the resolution is marked dead and nobody else
    changes liveness.
   */
  lemma NightEndsKills(s: StoreState, roomId: Id, role: RoleName)
    requires roomId == s.room.id
    requires NextNightRole(s.room.completedNightRoles + [role], AliveOf(s.players)).None?
    ensures var s' := NightActionStep(s, roomId, role).0;
            var out := NightResolution(s);
            && |s'.players| == |s.players|
            && forall k :: 0 <= k < |s.players| ==>
                 s'.players[k].isAlive == (s.players[k].isAlive && s.players[k].id !in out.deaths)
  {
    NightEndIsClose(s, roomId, role);
  }

  /**
    At the end of the night the log gains one event per death and keeps what it had; with a
    bond between two players, each death has exactly one event, for this night, carrying the
    name the player had on arrival.
   */
  lemma NightEndsLogsEachDeath(s: StoreState, roomId: Id, role: RoleName, d: Id, s': StoreState)
    requires roomId == s.room.id
    requires NextNightRole(s.room.completedNightRoles + [role], AliveOf(s.players)).None?
    requires s.room.lovers.Some? ==> s.room.lovers.value.0 != s.room.lovers.value.1
    requires s' == NightActionStep(s, roomId, role).0
    ensures var out := NightResolution(s);
            && |s'.events| == |s.events| + |out.deaths|
            && s'.events[..|s.events|] == s.events
            && (d in out.deaths ==>
                  LoggedOnceFrom(s'.events, |s.events|, d, Death(AtNight(s.room.nightNumber), d, NameOpt(s.players, d), DiedAtNight)))
  {
    NightEndIsClose(s, roomId, role);
    var deaths := NightResolution(s).deaths;
    ResolutionDistinct(s);
    LogOnePerDeath(s.events, AtNight(s.room.nightNumber), deaths, s.players, DiedAtNight, d);
  }

  /** With a bond between two players, the night's deaths are distinct. */
  lemma ResolutionDistinct(s: StoreState)
    requires s.room.lovers.Some? ==> s.room.lovers.value.0 != s.room.lovers.value.1
    ensures Distinct(NightResolution(s).deaths)
  {
    NightDeathsDistinct(Picks(ActionsOfNight(s.nightActions, s.room.nightNumber)), s.players, s.room.lovers);
  }

  /** Among the entries of `log` from index `from` on, `e` is the one death event about `d`. */
  ghost predicate LoggedOnceFrom(log: seq<GameEvent>, from: nat, d: Id, e: GameEvent)
  {
    exists k :: from <= k < |log| && log[k] == e && e.Death? && e.playerId == d
      && forall m :: from <= m < |log| && log[m].Death? && log[m].playerId == d ==> m == k
  }

  /** Appending the death events of distinct deaths to a log gives each death exactly one new event. */
  lemma LogOnePerDeath(log: seq<GameEvent>, time: EventTime, deaths: seq<Id>, players: seq<Player>,
                       cause: DeathCause, d: Id)
    requires Distinct(deaths)
    ensures var all := log + DeathEvents(time, deaths, players, cause);
            && |all| == |log| + |deaths|
            && all[..|log|] == log
            && (d in deaths ==> LoggedOnceFrom(all, |log|, d, Death(time, d, NameOpt(players, d), cause)))
  {
    var ev := DeathEvents(time, deaths, players, cause);
    var all := log + ev;
    assert all[..|log|] == log;
    DeathEventsOnePerDeath(time, deaths, players, cause, d);
    if d in deaths {
      var k :| 0 <= k < |ev| && ev[k].playerId == d && forall m :: 0 <= m < |ev| && ev[m].playerId == d ==> m == k;
      assert ev[k] == Death(time, d, NameOpt(players, d), cause);
      assert all[|log| + k] == ev[k];
      forall m | |log| <= m < |all| && all[m].Death? && all[m].playerId == d ensures m == |log| + k {
        assert all[m] == ev[m - |log|];
      }
    }
  }

  /**
    At the end of the night the room ends exactly when the win check on the snapshot finds
    a winner, and shows the day summary otherwise; the day number advances, the night number
    stays, and the summary is the resolution's.
   */
  lemma NightEndsRoom(s: StoreState, roomId: Id, role: RoleName)
    requires roomId == s.room.id
    requires NextNightRole(s.room.completedNightRoles + [role], AliveOf(s.players)).None?
    ensures var (s', resp) := NightActionStep(s, roomId, role);
            var out := NightResolution(s);
            var winner := CheckWinCondition(NightSnapshot(s.players, out.deaths), s.room.lovers);
            && (s'.room.status == Ended <==> winner.Some?)
            && (winner.None? ==> s'.room.status == DaySummary && s'.room.winner == s.room.winner)
            && (winner.Some? ==> s'.room.winner == winner)
            && s'.room.dayNumber == s.room.dayNumber + 1
            && s'.room.nightNumber == s.room.nightNumber
            && s'.room.nightSummary == out.summary
            && s'.room.completedNightRoles == s.room.completedNightRoles + [role]
            && resp == NightEnded(out.summary, winner)
  {
    NightEndIsClose(s, roomId, role);
  }

  /** A caller who is not the host is turned away with nothing changed. */
  lemma CloseVoteHostOnly(s: StoreState, roomId: Id, user: Option<Id>)
    requires roomId != s.room.id || user.None? || s.room.hostId != user.value
    ensures CloseVoteStep(s, roomId, user) == (s, Error(403, HostOnly))
  {
  }

  /** Only the current day's votes count: stores that agree on them and on everything else close the vote alike. */
  lemma CloseVoteReadsOnlyToday(s: StoreState, t: StoreState, roomId: Id, user: Option<Id>)
    requires t == s.(votes := t.votes)
    requires VotesOfDay(t.votes, s.room.dayNumber) == VotesOfDay(s.votes, s.room.dayNumber)
    ensures CloseVoteStep(t, roomId, user).1 == CloseVoteStep(s, roomId, user).1
    ensures CloseVoteStep(t, roomId, user).0 == CloseVoteStep(s, roomId, user).0.(votes := t.votes)
  {
  }

  /**
    A unique top target of the day dies first, named with its role, followed by its living
    partner; on a tie or with no vote nobody dies and the summary is the single tie line.
    Players already dead stay dead, and without a winner the next night starts with a fresh
    sequence, so a living Cupidon is awaited again.
   */
  lemma CloseVoteOutcome(s: StoreState, roomId: Id, user: Option<Id>)
    requires ValidState(s)
    requires roomId == s.room.id && user.Some? && s.room.hostId == user.value
    ensures var (s', resp) := CloseVoteStep(s, roomId, user);
            var dayVotes := VotesOfDay(s.votes, s.room.dayNumber);
            var w := TallyWinner(dayVotes);
            var verdict := DayVerdict(s);
            && (Truthy(w) ==>
                  && verdict.0 == [w.value] + OptSeq(LoverCascade(w.value, s.players, s.room.lovers))
                  && verdict.1[0] == Eliminated(NameOpt(s.players, w.value), RoleOpt(s.players, w.value)))
            && ((IsTie(dayVotes) || dayVotes == []) ==> verdict == ([], [Tie]))
            && |s'.players| == |s.players|
            && (forall k :: 0 <= k < |s.players| ==>
                  s'.players[k].isAlive == (s.players[k].isAlive && s.players[k].id !in verdict.0))
            && resp.VoteClosed? && resp.summary == verdict.1
            && resp.winner == CheckWinCondition(s'.players, s.room.lovers)
            && (resp.winner.Some? ==> s'.room == s.room.(status := Ended, winner := resp.winner))
            && (resp.winner.None? ==>
                  && s'.room.status == Night
                  && s'.room.nightNumber == s.room.nightNumber + 1
                  && s'.room.dayNumber == s.room.dayNumber
                  && s'.room.completedNightRoles == [] && s'.room.nightSummary == []
                  && s'.room.currentPhaseRole == NextNightRole([], AliveOf(s'.players)))
            && ValidState(s')
  {
    VoteVerdictSpec(VotesOfDay(s.votes, s.room.dayNumber), s.players, s.room.lovers);
    var s' := CloseVoteStep(s, roomId, user).0;
    SameIdsUnique(s.players, s'.players);
  }

  /** A bot acts only while its role is awaited, and then logs exactly one action for the current night. */
  lemma BotNightOnlyWhenAwaited(s: StoreState, roomId: Id, botId: Id, role: RoleName, c: BotChoice)
    ensures var s' := BotNightStep(s, roomId, botId, role, c);
            && (!BotAwaited(s, roomId, role) ==> s' == s)
            && (BotAwaited(s, roomId, role) ==>
                  s' == s.(nightActions := s.nightActions + [NightAction(s.room.nightNumber, role, c.actionType, botId, c.targetId, c.lover2)]))
  {
  }

  /**
    After the bots' round every cast vote is the only vote of its voter for its day, votes
    with other keys are kept, and the store keeps one vote per voter and day.
   */
  lemma BotVotesOnePerBot(s: StoreState, roomId: Id, rows: seq<Vote>)
    requires ValidState(s) && UniqueVoteKeys(rows)
    ensures var s' := BotVoteStep(s, roomId, rows);
            && ValidState(s')
            && s'.players == s.players && s'.room == s.room && s'.events == s.events
            && (roomId == s.room.id && s.room.status == DayVote ==>
                  && (forall v :: v in rows ==> v in s'.votes)
                  && (forall v, w :: v in rows && w in s'.votes && SameKey(w, v) ==> w == v)
                  && (forall w :: w in s.votes && (forall v :: v in rows ==> !SameKey(w, v)) ==> w in s'.votes))
  {
    UpsertAllSpec(s.votes, rows);
  }

  datatype BotRequest = AdvanceFromReveal | NightAct | VoteRound | OtherAction

  // ---------------------------------------------------------------------------
  // The store and the routes

  class Store {
    var room: Room
    var players: seq<Player>
    var nightActions: seq<NightAction>
    var votes: seq<Vote>
    var events: seq<GameEvent>

    function State(): StoreState
      reads this
    {
      StoreState(room, players, nightActions, votes, events)
    }

    ghost predicate Valid()
      reads this
    {
      ValidState(State())
    }

    /** A store holding a newly created room and nothing else. */
    constructor(room: Room)
      ensures State() == StoreState(room, [], [], [], [])
      ensures Valid()
    {
      this.room := room;
      players := [];
      nightActions := [];
      votes := [];
      events := [];
    }

    /** join: the guard chain, then an insert unless the user already has exactly one record. */
    method Join(name: Option<string>, code: Option<string>, userId: Option<Id>, freshId: Id)
      returns (resp: Response)
      requires Valid() && !HasId(players, freshId)
      modifies this
      ensures Valid()
      ensures (State(), resp) == JoinStep(old(State()), name, code, userId, freshId)
    {
      if name.None? || Trim(name.value) == "" {
        return Error(400, NameRequired);
      }
      if code.None? || Trim(code.value) == "" {
        return Error(400, CodeRequired);
      }
      if !Truthy(userId) {
        return Error(401, AuthFailed);
      }
      if ToUpper(code.value) != room.code {
        return Error(404, RoomNotFound);
      }
      if room.status != Lobby {
        return Error(400, AlreadyStarted);
      }
      if |players| >= 12 {
        return Error(400, RoomFull);
      }
      AdmitPlayer(userId.value, Trim(name.value), freshId);
      resp := Joined(room.code, room.id);
    }

    /** Adds the joiner's player record unless the user already has one. */
    method AdmitPlayer(userId: Id, name: string, freshId: Id)
      requires Valid() && !HasId(players, freshId)
      modifies this
      ensures Valid()
      ensures State() == old(State()).(players := Admit(old(players), userId, name, freshId))
    {
      if CountWithUser(players, userId) != 1 {
        var joiner := Player(freshId, userId, name, None, true, false, false);
        assert forall p :: p in players ==> p.id != joiner.id;
        players := players + [joiner];
      }
    }

    /**
      start: authentication, host and size guards, the role-count check, then role
      assignment, the move to role_reveal and the opening event. `pool` is the shuffled
      pool the roles were dealt from.
     */
    method Start(roomId: Id, userId: Option<Id>) returns (resp: Response, ghost pool: seq<RoleName>)
      requires Valid()
      modifies this
      ensures Valid()
      ensures multiset(pool) == multiset(PoolOf(old(room.config)))
      ensures (State(), resp) == StartStep(old(State()), roomId, userId, pool)
    {
      pool := PoolOf(room.config);
      if !Truthy(userId) {
        return Error(401, AuthRequired), pool;
      }
      if roomId != room.id {
        return Error(404, RoomNotFound), pool;
      }
      if room.hostId != userId.value {
        return Error(403, HostOnly), pool;
      }
      if |players| < 4 {
        return Error(400, TooFewPlayers), pool;
      }
      var total := ConfigTotal(room.config);
      if total != |players| {
        return Error(400, RoleCountMismatch(total, |players|)), pool;
      }
      ghost var s0 := State();
      pool := BeginGame();
      StartedKeepsValid(s0, pool);
      resp := Ok;
    }

    /** Once every guard of the start route has passed: deal the roles and open the reveal. */
    method BeginGame() returns (ghost pool: seq<RoleName>)
      modifies this
      ensures multiset(pool) == multiset(PoolOf(old(room.config)))
      ensures State() == Started(old(State()), pool)
    {
      ghost var s0 := State();
      var roleMap;
      roleMap, pool := AssignRoles(IdsOf(players), room.config);
      var dealt := UpdateRoles(players, roleMap);
      players := dealt;
      OpenReveal();
    }

    /** Move the room to the reveal of night 1 and log the game's start. */
    method OpenReveal()
      modifies this
      ensures State() == old(State()).(
                room := old(room).(status := RoleReveal, nightNumber := 1,
                                   currentPhaseRole := NextNightRole([], AllAlive(players)),
                                   completedNightRoles := [], dayNumber := 1),
                events := old(events) + [PhaseChange(1, GameStarts)])
    {
      var firstRole := NextNightRole([], AllAlive(players));
      room := room.(status := RoleReveal, nightNumber := 1, currentPhaseRole := firstRole,
                    completedNightRoles := [], dayNumber := 1);
      events := events + [PhaseChange(1, GameStarts)];
    }

    /** One role update per entry of the role map, on the player with that id. */
    static method UpdateRoles(players: seq<Player>, roleMap: map<Id, Option<RoleName>>) returns (r: seq<Player>)
      ensures r == DealRoles(players, roleMap)
    {
      r := players;
      var k := 0;
      while k < |players|
        invariant 0 <= k <= |players| && |r| == |players|
        invariant forall m :: 0 <= m < k ==> r[m] == DealRoles(players, roleMap)[m]
        invariant forall m :: k <= m < |players| ==> r[m] == players[m]
      {
        if players[k].id in roleMap {
          r := r[k := players[k].(role := roleMap[players[k].id])];
        }
        k := k + 1;
      }
    }

    /** The guarded role_reveal to night move shared by advance-reveal and the bots' advance_from_reveal. */
    method RevealToNight(roomId: Id, message: PhaseMessage) returns (resp: Response)
      requires Valid()
      modifies this
      ensures Valid() && resp == Ok
      ensures State() == RevealStep(old(State()), roomId, message)
    {
      if roomId != room.id || room.status != RoleReveal {
        return Ok;
      }
      room := room.(status := Night);
      events := events + [PhaseChange(room.nightNumber, message)];
      resp := Ok;
    }

    /** advance-reveal. */
    method AdvanceReveal(roomId: Id) returns (resp: Response)
      requires Valid()
      modifies this
      ensures Valid() && resp == Ok
      ensures State() == RevealStep(old(State()), roomId, NightFalls)
    {
      resp := RevealToNight(roomId, NightFalls);
    }

    /** Mark the ids dead and append one death event per id, in order, named from the snapshot. */
    method ApplyDeaths(deaths: seq<Id>, time: EventTime, snapshot: seq<Player>, cause: DeathCause)
      requires Valid()
      modifies this
      ensures Valid()
      ensures State() == old(State()).(players := MarkDead(old(players), deaths),
                                       events := old(events) + DeathEvents(time, deaths, snapshot, cause))
    {
      if |deaths| > 0 {
        var dead := MarkDead(players, deaths);
        SameIdsUnique(players, dead);
        players := dead;
      } else {
        assert MarkDead(players, deaths) == players;
      }
      var logged := events;
      var i := 0;
      while i < |deaths|
        invariant 0 <= i <= |deaths|
        invariant logged == old(events) + DeathEvents(time, deaths[..i], snapshot, cause)
      {
        var did := deaths[i];
        logged := logged + [Death(time, did, NameOpt(snapshot, did), cause)];
        assert DeathEvents(time, deaths[..i + 1], snapshot, cause)
            == DeathEvents(time, deaths[..i], snapshot, cause) + [Death(time, did, NameOpt(snapshot, did), cause)];
        i := i + 1;
      }
      assert deaths[..i] == deaths;
      events := logged;
    }

    /** Record the bond named by the night's Cupidon action in the room and on both lovers. */
    method LinkLovers(role: RoleName)
      requires Valid()
      modifies this
      ensures Valid()
      ensures State() == Bonded(old(State()), role)
    {
      if role == Cupidon {
        var link := CupidonLink(nightActions, room.nightNumber);
        if link.Some? {
          room := room.(lovers := link);
          var linked := MarkLovers(players, link.value);
          SameIdsUnique(players, linked);
          players := linked;
        }
      }
    }

    /**
      night-action: append the reporting role to the completed list, record Cupidon's bond,
      then either hand the turn to the next role or resolve the night. Night resolution
      reads the room and players as they were when the request arrived.
     */
    method ReportNightAction(roomId: Id, role: RoleName) returns (resp: Response)
      requires Valid()
      modifies this
      ensures Valid()
      ensures (State(), resp) == NightActionStep(old(State()), roomId, role)
    {
      if roomId != room.id {
        return Error(404, RoomNotFound);
      }
      ghost var s0 := State();
      var snapshotRoom := room;
      var snapshot := players;
      var completed := snapshotRoom.completedNightRoles + [role];
      var alive := AliveOf(snapshot);
      LinkLovers(role);
      var nextRole := NextNightRole(completed, alive);
      if nextRole.None? {
        resp := CloseNight(snapshotRoom, snapshot, completed);
        return;
      }
      room := room.(status := Night, currentPhaseRole := nextRole, completedNightRoles := completed);
      resp := NextTurn(nextRole.value);
    }

    /**
      The end of a night: compile the night's actions against the arrival snapshot, apply
      and log the deaths, then end the game or open the day summary.
     */
    method CloseNight(room0: Room, snapshot: seq<Player>, completed: seq<RoleName>) returns (resp: Response)
      requires Valid()
      modifies this
      ensures Valid()
      ensures (State(), resp) == NightClosed(room0, snapshot, old(State()), completed)
    {
      var actions := ActionsOfNight(nightActions, room0.nightNumber);
      var deaths, saved, summary := CompileNightResult(actions, snapshot, room0.lovers);
      ghost var out := NightOutcome(actions, snapshot, room0.lovers);
      assert deaths == out.deaths && summary == out.summary;
      ApplyDeaths(deaths, AtNight(room0.nightNumber), snapshot, DiedAtNight);
      var winner := CheckWinCondition(NightSnapshot(snapshot, deaths), room0.lovers);
      if winner.Some? {
        room := room.(status := Ended, winner := winner, nightSummary := summary,
                      completedNightRoles := completed, dayNumber := room0.dayNumber + 1);
      } else {
        room := room.(status := DaySummary, nightSummary := summary,
                      completedNightRoles := completed, dayNumber := room0.dayNumber + 1);
      }
      resp := NightEnded(summary, winner);
    }

    /** Tally today's ballots and work out who the vote eliminates and what the summary says. */
    static method TallyDay(votes: seq<Vote>, dayNumber: int, snapshot: seq<Player>, lovers: Option<(Id, Id)>)
      returns (deaths: seq<Id>, summary: seq<SummaryLine>)
      ensures (deaths, summary) == VoteVerdict(TallyWinner(VotesOfDay(votes, dayNumber)), snapshot, lovers)
    {
      var dayVotes := VotesOfDay(votes, dayNumber);
      var alive := AliveOf(snapshot);
      var eliminated, counts, tie := TallyVotes(dayVotes, alive);
      if eliminated.Some? {
        TallyWinnerUnique(dayVotes, eliminated.value);
      }
      assert (if tie then None else eliminated) == TallyWinner(dayVotes);
      deaths, summary := VoteDeaths(eliminated, tie, snapshot, alive, lovers);
    }

    /** The vote route's deaths and summary lines, pushed in order. */
    static method VoteDeaths(eliminated: Option<Id>, tie: bool, players: seq<Player>, alive: seq<Player>,
                             lovers: Option<(Id, Id)>) returns (deaths: seq<Id>, summary: seq<SummaryLine>)
      requires alive == AliveOf(players)
      ensures (deaths, summary) == VoteVerdict(if tie then None else eliminated, players, lovers)
    {
      deaths := [];
      summary := [];
      if !tie && Truthy(eliminated) {
        var e := eliminated.value;
        deaths := deaths + [e];
        summary := summary + [Eliminated(NameOpt(players, e), RoleOpt(players, e))];
        var c := LoverCascade(e, alive, lovers);
        if c.Some? {
          deaths := deaths + [c.value];
          summary := summary + [VoteHeartbreak(NameOpt(players, c.value))];
          assert deaths == [e, c.value];
          assert summary == [Eliminated(NameOpt(players, e), RoleOpt(players, e)), VoteHeartbreak(NameOpt(players, c.value))];
        } else {
          assert deaths == [e] && summary == [Eliminated(NameOpt(players, e), RoleOpt(players, e))];
        }
        assert (if tie then None else eliminated) == eliminated;
      } else {
        summary := summary + [Tie];
        assert deaths == [] && summary == [Tie];
        assert !Truthy(if tie then None else eliminated);
      }
    }

    /**
      vote: host check, tally of the current day's votes, the eliminated player and the
      living partner die, then the game ends or the next night begins with a fresh sequence.
     */
    method CloseVote(roomId: Id, user: Option<Id>) returns (resp: Response)
      requires Valid()
      modifies this
      ensures Valid()
      ensures (State(), resp) == CloseVoteStep(old(State()), roomId, user)
    {
      if roomId != room.id || user.None? || room.hostId != user.value {
        return Error(403, HostOnly);
      }
      var snapshotRoom := room;
      var snapshot := players;
      var lovers := snapshotRoom.lovers;
      var deaths, summary := TallyDay(votes, snapshotRoom.dayNumber, snapshot, lovers);
      assert (deaths, summary) == DayVerdict(old(State()));
      ApplyDeaths(deaths, AtDay(snapshotRoom.dayNumber), snapshot, VotedOut);
      var updated := MarkDead(snapshot, deaths);
      var winner := CheckWinCondition(updated, lovers);
      if winner.Some? {
        room := room.(status := Ended, winner := winner);
      } else {
        var aliveNow := AliveOf(updated);
        var nextRole := NextNightRole([], aliveNow);
        room := room.(status := Night, nightNumber := snapshotRoom.nightNumber + 1, currentPhaseRole := nextRole,
                      completedNightRoles := [], nightSummary := []);
      }
      resp := VoteClosed(summary, winner);
    }

    /**
      bot-turn night_act: only the bot whose role is being awaited during a night acts; it
      logs the action its role calls for.
     */
    method BotNightAct(roomId: Id, botId: Id, role: RoleName) returns (resp: Response, ghost c: BotChoice)
      requires Valid()
      modifies this
      ensures Valid() && resp == Ok
      ensures BotAwaited(old(State()), roomId, role) ==>
                LegalNightChoice(role, players, botId, room.nightNumber, room.gardeLastProtected, c)
      ensures State() == BotNightStep(old(State()), roomId, botId, role, c)
    {
      c := Passing;
      if roomId != room.id || room.status != Night {
        return Ok, c;
      }
      if room.currentPhaseRole != Some(role) {
        return Ok, c;
      }
      var choice := BotNightChoice(role, players, botId, room.nightNumber, room.gardeLastProtected);
      c := choice;
      nightActions := nightActions + [BotAction(room.nightNumber, role, botId, choice)];
      resp := Ok;
    }

    /**
      bot-turn vote: during a day vote, every eligible bot casts one vote, upserted on
      (day, voter); `rows` are the votes cast.
     */
    method BotVoteRound(roomId: Id) returns (resp: Response, ghost rows: seq<Vote>)
      requires Valid()
      modifies this
      ensures Valid() && resp == Ok
      ensures UniqueVoteKeys(rows)
      ensures roomId == old(room.id) && old(room.status) == DayVote ==>
                && (forall v :: v in rows ==> LegalBotVote(players, VotedToday(old(State())), room.dayNumber, v))
                && (forall b :: EligibleBot(players, VotedToday(old(State())), b) ==>
                      exists v :: v in rows && v.voterId == b.id)
      ensures State() == BotVoteStep(old(State()), roomId, rows)
    {
      rows := [];
      if roomId != room.id || room.status != DayVote {
        return Ok, rows;
      }
      var voted := VoterIds(VotesOfDay(votes, room.dayNumber));
      var inserts := ChooseBotVotes(players, voted, room.dayNumber);
      rows := inserts;
      UpsertAllSpec(votes, inserts);
      if |inserts| > 0 {
        votes := UpsertAll(votes, inserts);
      }
      resp := Ok;
    }

    /** bot-turn: dispatch on the requested action; an unknown action is a 400. */
    method BotTurn(request: BotRequest, roomId: Id, botId: Id, role: RoleName) returns (resp: Response)
      requires Valid()
      modifies this
      ensures Valid()
      ensures request == OtherAction <==> resp == Error(400, UnknownAction)
      ensures request == OtherAction ==> unchanged(this)
      ensures request == AdvanceFromReveal ==> resp == Ok && State() == RevealStep(old(State()), roomId, NightFallsBot)
      ensures request == NightAct ==>
                && resp == Ok
                && exists c: BotChoice ::
                     && State() == BotNightStep(old(State()), roomId, botId, role, c)
                     && (BotAwaited(old(State()), roomId, role) ==>
                           LegalNightChoice(role, players, botId, room.nightNumber, room.gardeLastProtected, c))
      ensures request == VoteRound ==>
                && resp == Ok
                && exists rows: seq<Vote> ::
                     && UniqueVoteKeys(rows)
                     && State() == BotVoteStep(old(State()), roomId, rows)
                     && (roomId == old(room.id) && old(room.status) == DayVote ==>
                           && (forall v :: v in rows ==> LegalBotVote(players, VotedToday(old(State())), room.dayNumber, v))
                           && (forall b :: EligibleBot(players, VotedToday(old(State())), b) ==>
                                 exists v :: v in rows && v.voterId == b.id))
    {
      match request
      case AdvanceFromReveal =>
        resp := RevealToNight(roomId, NightFallsBot);
      case NightAct =>
        ghost var c;
        resp, c := BotNightAct(roomId, botId, role);
      case VoteRound =>
        ghost var rows;
        resp, rows := BotVoteRound(roomId);
      case OtherAction =>
        resp := Error(400, UnknownAction);
    }
  }
}
