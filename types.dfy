/**
  The static vocabulary of the game: role names, teams, room statuses, the role
  catalog with its night-order positions, the default role configuration, and the
  record shapes kept by the room store (players, night actions, votes, the room).
 */
module Types {

  datatype Option<T> = None | Some(value: T)

  /** Player, room and user identifiers are the store's UUID strings. */
  type Id = string

  datatype RoleName =
    | LoupGarou
    | Villageois
    | Voyante
    | Sorciere
    | Chasseur
    | Garde
    | Cupidon
    | PetiteFille

  datatype Team = WolfTeam | VillageTeam

  /** A winning faction; "no winner yet" is `None` of `Option<Winner>`. */
  datatype Winner = Wolves | Villagers | Lovers

  datatype RoomStatus = Lobby | RoleReveal | Night | DaySummary | DayVote | Ended

  datatype ActionType =
    | Kill | Heal | Poison | Protect | Reveal | Spy | LinkLovers | VoteAction | Shoot | Pass

  /** The rule-relevant part of a catalog entry (description, colour and emoji are display data). */
  datatype RoleConfig = RoleConfig(team: Team, nightOrder: Option<nat>)

  /** The role catalog. */
  function Roles(r: RoleName): RoleConfig
  {
    match r
    case LoupGarou => RoleConfig(WolfTeam, Some(4))
    case Villageois => RoleConfig(VillageTeam, None)
    case Voyante => RoleConfig(VillageTeam, Some(6))
    case Sorciere => RoleConfig(VillageTeam, Some(5))
    case Chasseur => RoleConfig(VillageTeam, None)
    case Garde => RoleConfig(VillageTeam, Some(1))
    case Cupidon => RoleConfig(VillageTeam, Some(2))
    case PetiteFille => RoleConfig(VillageTeam, Some(3))
  }

  /** The fixed order in which roles are woken up during a night. */
  const NightOrder: seq<RoleName> := [Garde, Cupidon, PetiteFille, LoupGarou, Sorciere, Voyante]

  predicate Distinct<T(==)>(s: seq<T>)
  {
    forall i, j :: 0 <= i < j < |s| ==> s[i] != s[j]
  }

  /** NIGHT_ORDER lists exactly the roles that have a night position, by increasing position 1..6. */
  lemma NightOrderMatchesCatalog()
    ensures forall r :: Roles(r).nightOrder.Some? <==> r in NightOrder
    ensures forall i :: 0 <= i < |NightOrder| ==> Roles(NightOrder[i]).nightOrder == Some(i + 1)
    ensures forall i, j :: 0 <= i < j < |NightOrder| ==>
              Roles(NightOrder[i]).nightOrder.value < Roles(NightOrder[j]).nightOrder.value
    ensures Distinct(NightOrder)
  {
  }

  /** Villageois and Chasseur have no night turn, so the night sequencer never waits for them. */
  lemma DayOnlyRoles()
    ensures Roles(Villageois).nightOrder.None? && Villageois !in NightOrder
    ensures Roles(Chasseur).nightOrder.None? && Chasseur !in NightOrder
  {
  }

  /** Loup-Garou is the only wolf-team role. */
  lemma OnlyWolfIsLoupGarou()
    ensures forall r :: Roles(r).team == WolfTeam <==> r == LoupGarou
  {
  }

  /** One entry of a room's role configuration (`Record<RoleName, number>` in entry order). */
  datatype ConfigEntry = ConfigEntry(role: RoleName, count: int)

  const DefaultConfig: seq<ConfigEntry> := [
    ConfigEntry(LoupGarou, 2), ConfigEntry(Villageois, 3), ConfigEntry(Voyante, 1),
    ConfigEntry(Sorciere, 1), ConfigEntry(Chasseur, 1), ConfigEntry(Cupidon, 1),
    ConfigEntry(Garde, 0), ConfigEntry(PetiteFille, 0)
  ]

  /** The sum of the configured counts, as `Object.values(config).reduce(+, 0)` computes it. */
  function ConfigTotal(config: seq<ConfigEntry>): int
  {
    if config == [] then 0 else ConfigTotal(config[..|config| - 1]) + config[|config| - 1].count
  }

  /** The roles named by a configuration, in entry order. */
  function ConfigRoles(config: seq<ConfigEntry>): (rs: seq<RoleName>)
    ensures |rs| == |config| && forall i :: 0 <= i < |config| ==> rs[i] == config[i].role
  {
    seq(|config|, i requires 0 <= i < |config| => config[i].role)
  }

  /** The default configuration names every role exactly once, and its counts total 9. */
  lemma DefaultConfigShape()
    ensures forall r :: r in ConfigRoles(DefaultConfig)
    ensures Distinct(ConfigRoles(DefaultConfig))
    ensures forall i :: 0 <= i < |DefaultConfig| ==> DefaultConfig[i].count >= 0
    ensures ConfigTotal(DefaultConfig) == 9
  {
    var rs := ConfigRoles(DefaultConfig);
    forall r ensures r in rs {
      match r
      case LoupGarou => assert rs[0] == r;
      case Villageois => assert rs[1] == r;
      case Voyante => assert rs[2] == r;
      case Sorciere => assert rs[3] == r;
      case Chasseur => assert rs[4] == r;
      case Cupidon => assert rs[5] == r;
      case Garde => assert rs[6] == r;
      case PetiteFille => assert rs[7] == r;
    }
    var d := DefaultConfig;
    assert ConfigTotal(d[..1]) == 2 by { assert d[..1][..0] == []; }
    assert ConfigTotal(d[..2]) == 5 by { assert d[..2][..1] == d[..1]; }
    assert ConfigTotal(d[..3]) == 6 by { assert d[..3][..2] == d[..2]; }
    assert ConfigTotal(d[..4]) == 7 by { assert d[..4][..3] == d[..3]; }
    assert ConfigTotal(d[..5]) == 8 by { assert d[..5][..4] == d[..4]; }
    assert ConfigTotal(d[..6]) == 9 by { assert d[..6][..5] == d[..5]; }
    assert ConfigTotal(d[..7]) == 9 by { assert d[..7][..6] == d[..6]; }
    assert ConfigTotal(d) == 9 by { assert d[..7] == d[..|d| - 1]; }
  }

  datatype Player = Player(
    id: Id,
    userId: Id,
    name: string,
    role: Option<RoleName>,
    isAlive: bool,
    isLover: bool,
    isBot: bool)

  /** A submitted night action; `lover2` is the `result.lover2` payload of a Cupidon link. */
  datatype NightAction = NightAction(
    night: int,
    role: RoleName,
    actionType: ActionType,
    actorId: Id,
    targetId: Option<Id>,
    lover2: Option<Id>)

  datatype Vote = Vote(day: int, voterId: Id, targetId: Id)

  /**
    One line of a night or vote summary, carrying the player name it mentions.
    `Eliminated` keeps the looked-up name and role, `None` where the lookup found nothing.
   */
  datatype SummaryLine =
    | Protected(name: string)
    | Saved
    | Devoured(name: string)
    | Heartbreak(name: string)
    | Poisoned(name: string)
    | Quiet
    | Eliminated(who: Option<string>, shownRole: Option<RoleName>)
    | VoteHeartbreak(who: Option<string>)
    | Tie

  datatype Room = Room(
    id: Id,
    code: string,
    hostId: Id,
    status: RoomStatus,
    nightNumber: int,
    dayNumber: int,
    config: seq<ConfigEntry>,
    winner: Option<Winner>,
    currentPhaseRole: Option<RoleName>,
    nightSummary: seq<SummaryLine>,
    lovers: Option<(Id, Id)>,
    gardeLastProtected: Option<Id>,
    completedNightRoles: seq<RoleName>)

  /** The moment a logged event belongs to: events carry either a night or a day number. */
  datatype EventTime = AtNight(night: int) | AtDay(day: int)

  datatype PhaseMessage = GameStarts | NightFalls | NightFallsBot

  datatype DeathCause = DiedAtNight | VotedOut

  datatype GameEvent =
    | PhaseChange(night: int, message: PhaseMessage)
    | Death(time: EventTime, playerId: Id, playerName: Option<string>, cause: DeathCause)
}
