/**
  Bot players: the night action a bot takes for its role, the day votes the bots cast,
  and the vote upsert keyed by (day, voter).
 */
module Bots {
  import opened Types
  import opened Engine

  /** The player with this id is in the list and alive. */
  predicate LivingId(players: seq<Player>, id: Id)
  {
    exists p :: p in players && p.isAlive && p.id == id
  }

  /** The action a bot submits: its type, its target and, for a lover link, the second lover. */
  datatype BotChoice = BotChoice(actionType: ActionType, targetId: Option<Id>, lover2: Option<Id>)

  const Passing := BotChoice(Pass, None, None)

  function NotId(id: Id): Player -> bool
  {
    (p: Player) => p.id != id
  }

  /** The guard may protect neither itself nor the player it protected last. */
  function GardeMay(botId: Id, gardeLast: Option<Id>): Player -> bool
  {
    (p: Player) => p.id != botId && Some(p.id) != gardeLast
  }

  /** The living players other than the bot, in store order. */
  function OthersThan(players: seq<Player>, botId: Id): seq<Player>
  {
    Filter(AliveOf(players), NotId(botId))
  }

  /** What each role's bot is allowed to do. */
  ghost predicate LegalNightChoice(role: RoleName, players: seq<Player>, botId: Id, night: int,
                                   gardeLast: Option<Id>, c: BotChoice)
  {
    match role
    case LoupGarou =>
      if exists p :: p in players && p.isAlive && !IsWolf(p) then
        c.actionType == Kill && c.lover2.None?
        && exists p :: p in players && p.isAlive && !IsWolf(p) && c.targetId == Some(p.id)
      else c == Passing
    case Voyante =>
      if exists p :: p in players && p.isAlive && p.id != botId then
        c.actionType == Reveal && c.lover2.None?
        && exists p :: p in players && p.isAlive && p.id != botId && c.targetId == Some(p.id)
      else c == Passing
    case Sorciere => c == Passing
    case Garde =>
      if exists p :: p in players && p.isAlive && p.id != botId && Some(p.id) != gardeLast then
        c.actionType == Protect && c.lover2.None?
        && exists p :: p in players && p.isAlive && p.id != botId && Some(p.id) != gardeLast && c.targetId == Some(p.id)
      else c == Passing
    case Cupidon =>
      var others := OthersThan(players, botId);
      if night == 1 && |others| >= 2 then
        c == BotChoice(LinkLovers, Some(others[0].id), Some(others[1].id))
      else c == Passing
    case PetiteFille => c == BotChoice(Spy, None, None)
    case _ => c == Passing
  }

  /** A bot's lover link joins two different living players, neither of them the bot. */
  lemma CupidonLinksTwoOthers(players: seq<Player>, botId: Id, c: BotChoice)
    requires UniqueIds(players)
    requires LegalNightChoice(Cupidon, players, botId, 1, None, c) && c.actionType == LinkLovers
    ensures c.targetId.Some? && c.lover2.Some? && c.targetId.value != c.lover2.value
    ensures LivingId(players, c.targetId.value) && LivingId(players, c.lover2.value)
    ensures c.targetId.value != botId && c.lover2.value != botId
  {
    var others := OthersThan(players, botId);
    FilterKeepsUniqueIds(players, IsLiving);
    FilterKeepsUniqueIds(AliveOf(players), NotId(botId));
    assert others[0] in others && others[1] in others;
  }

  /** On later nights, and with fewer than two other living players, the Cupidon bot passes. */
  lemma CupidonOnlyOnFirstNight(players: seq<Player>, botId: Id, night: int, gardeLast: Option<Id>, c: BotChoice)
    requires LegalNightChoice(Cupidon, players, botId, night, gardeLast, c)
    ensures c.actionType == LinkLovers <==> night == 1 && |OthersThan(players, botId)| >= 2
  {
  }

  /**
    The bot's night action: wolves kill a living non-wolf, the seer looks at someone else,
    the witch keeps her potions, the guard protects someone other than itself and than the
    last protected player, Cupidon links the first two other living players on the first
    night, the little girl spies; each falls back to passing when nobody qualifies.
   */
  method BotNightChoice(role: RoleName, players: seq<Player>, botId: Id, night: int, gardeLast: Option<Id>)
    returns (c: BotChoice)
    ensures LegalNightChoice(role, players, botId, night, gardeLast, c)
  {
    var alive := AliveOf(players);
    var actionType := Pass;
    var targetId: Option<Id> := None;
    var lover2: Option<Id> := None;
    if role == LoupGarou {
      var targets := Filter(alive, NotWolf);
      if |targets| > 0 {
        var k :| 0 <= k < |targets|;
        assert targets[k] in targets;
        actionType, targetId := Kill, Some(targets[k].id);
      } else {
        assert forall p :: p in players && p.isAlive ==> p in alive;
      }
    } else if role == Voyante {
      var targets := Filter(alive, NotId(botId));
      if |targets| > 0 {
        var k :| 0 <= k < |targets|;
        assert targets[k] in targets;
        actionType, targetId := Reveal, Some(targets[k].id);
      } else {
        assert forall p :: p in players && p.isAlive ==> p in alive;
      }
    } else if role == Sorciere {
      actionType := Pass;
    } else if role == Garde {
      var targets := Filter(alive, GardeMay(botId, gardeLast));
      if |targets| > 0 {
        var k :| 0 <= k < |targets|;
        assert targets[k] in targets;
        actionType, targetId := Protect, Some(targets[k].id);
      } else {
        assert forall p :: p in players && p.isAlive ==> p in alive;
      }
    } else if role == Cupidon && night == 1 {
      var targets := Filter(alive, NotId(botId));
      if |targets| >= 2 {
        actionType, targetId, lover2 := LinkLovers, Some(targets[0].id), Some(targets[1].id);
      }
    } else if role == PetiteFille {
      actionType := Spy;
    }
    c := BotChoice(actionType, targetId, lover2);
  }

  /** The row a bot's night turn inserts into the night-action log. */
  function BotAction(night: int, role: RoleName, botId: Id, c: BotChoice): NightAction
  {
    NightAction(night, role, c.actionType, botId, c.targetId, c.lover2)
  }

  // ---------------------------------------------------------------------------
  // Bot votes and the vote upsert

  /** Two votes are for the same (day, voter) key. */
  predicate SameKey(a: Vote, b: Vote)
  {
    a.day == b.day && a.voterId == b.voterId
  }

  /** At most one vote per voter per day: the store's unique key. */
  predicate UniqueVoteKeys(votes: seq<Vote>)
  {
    forall i, j :: 0 <= i < j < |votes| ==> !SameKey(votes[i], votes[j])
  }

  /** A bot-cast vote is legitimate: on the given day, by a living bot that had not voted, for another living player. */
  ghost predicate LegalBotVote(players: seq<Player>, votedToday: set<Id>, day: int, v: Vote)
  {
    && v.day == day
    && (exists b :: b in players && b.isAlive && b.isBot && b.id == v.voterId)
    && v.voterId !in votedToday
    && v.targetId != v.voterId
    && LivingId(players, v.targetId)
  }

  /** A living bot that has not voted today and has somebody else to vote for. */
  ghost predicate EligibleBot(players: seq<Player>, votedToday: set<Id>, b: Player)
  {
    b in players && b.isAlive && b.isBot && b.id !in votedToday
    && exists o :: o in players && o.isAlive && o.id != b.id
  }

  function IsBot(p: Player): bool { p.isBot }

  /**
    The vote action's loop: every living bot that has not voted today and has another
    living player to pick votes for an arbitrary one of them; no other vote is produced.
   */
  method ChooseBotVotes(players: seq<Player>, votedToday: set<Id>, day: int) returns (inserts: seq<Vote>)
    requires UniqueIds(players)
    ensures forall v :: v in inserts ==> LegalBotVote(players, votedToday, day, v)
    ensures forall b :: EligibleBot(players, votedToday, b) ==> exists v :: v in inserts && v.voterId == b.id
    ensures UniqueVoteKeys(inserts)
  {
    var alive := AliveOf(players);
    var bots := Filter(alive, IsBot);
    FilterKeepsUniqueIds(players, IsLiving);
    FilterKeepsUniqueIds(alive, IsBot);
    inserts := [];
    var i := 0;
    while i < |bots|
      invariant 0 <= i <= |bots|
      invariant forall v :: v in inserts ==> LegalBotVote(players, votedToday, day, v)
      invariant forall v :: v in inserts ==> exists k :: 0 <= k < i && bots[k].id == v.voterId
      invariant forall k :: 0 <= k < i && EligibleBot(players, votedToday, bots[k]) ==>
                  exists v :: v in inserts && v.voterId == bots[k].id
      invariant UniqueVoteKeys(inserts)
    {
      var bot := bots[i];
      assert bot in bots;
      var ballot := BotBallot(players, alive, votedToday, day, bot);
      if ballot.Some? {
        var v := ballot.value;
        forall w | w in inserts ensures !SameKey(w, v) {
          var m :| 0 <= m < i && bots[m].id == w.voterId;
        }
        AppendKeepsUniqueKeys(inserts, v);
        inserts := inserts + [v];
      }
      i := i + 1;
    }
    forall b | EligibleBot(players, votedToday, b) ensures exists v :: v in inserts && v.voterId == b.id {
      assert b in alive && b in bots;
      var k :| 0 <= k < |bots| && bots[k] == b;
    }
  }

  /** One bot's turn in the vote loop: skip it if it has voted, else vote for some other living player, if any. */
  method BotBallot(players: seq<Player>, alive: seq<Player>, votedToday: set<Id>, day: int, bot: Player)
    returns (ballot: Option<Vote>)
    requires alive == AliveOf(players) && bot in alive && bot.isBot
    ensures ballot.Some? ==> LegalBotVote(players, votedToday, day, ballot.value) && ballot.value.voterId == bot.id
    ensures ballot.None? ==> !EligibleBot(players, votedToday, bot)
  {
    if bot.id in votedToday {
      return None;
    }
    var targets := Filter(alive, NotId(bot.id));
    if |targets| == 0 {
      assert forall o :: o in players && o.isAlive ==> o in alive;
      return None;
    }
    var k :| 0 <= k < |targets|;
    assert targets[k] in targets;
    ballot := Some(Vote(day, bot.id, targets[k].id));
  }

  lemma AppendKeepsUniqueKeys(votes: seq<Vote>, v: Vote)
    requires UniqueVoteKeys(votes)
    requires forall w :: w in votes ==> !SameKey(w, v)
    ensures UniqueVoteKeys(votes + [v])
  {
    var r := votes + [v];
    forall i, j | 0 <= i < j < |r| ensures !SameKey(r[i], r[j]) {
      assert r[i] == votes[i];
      if j == |votes| {
        assert r[i] in votes;
      }
    }
  }

  /** `upsert` of one row on the (day, voter) key: replace the row with that key, or append. */
  function Upsert(votes: seq<Vote>, v: Vote): seq<Vote>
  {
    if votes == [] then [v]
    else if SameKey(votes[0], v) then [v] + votes[1..]
    else [votes[0]] + Upsert(votes[1..], v)
  }

  function UpsertAll(votes: seq<Vote>, rows: seq<Vote>): seq<Vote>
    decreases |rows|
  {
    if rows == [] then votes else UpsertAll(Upsert(votes, rows[0]), rows[1..])
  }

  /**
    Upserting keeps one vote per key: the new row is present and is the only one with its
    key, rows with other keys are kept, and nothing else appears.
   */
  lemma UpsertSpec(votes: seq<Vote>, v: Vote)
    requires UniqueVoteKeys(votes)
    ensures UniqueVoteKeys(Upsert(votes, v))
    ensures v in Upsert(votes, v)
    ensures forall w :: w in Upsert(votes, v) && SameKey(w, v) ==> w == v
    ensures forall w :: w in votes && !SameKey(w, v) ==> w in Upsert(votes, v)
    ensures forall w :: w in Upsert(votes, v) ==> w == v || w in votes
  {
    UpsertMembers(votes, v);
    UpsertKeepsUnique(votes, v);
  }

  /** The new row is in, rows with other keys stay, and nothing else appears. */
  lemma {:induction false} UpsertMembers(votes: seq<Vote>, v: Vote)
    ensures v in Upsert(votes, v)
    ensures forall w :: w in votes && !SameKey(w, v) ==> w in Upsert(votes, v)
    ensures forall w :: w in Upsert(votes, v) ==> w == v || w in votes
  {
    if votes != [] {
      var tail := votes[1..];
      assert votes == [votes[0]] + tail;
      if !SameKey(votes[0], v) {
        UpsertMembers(tail, v);
      }
    }
  }

  /** Upserting keeps one vote per key, and the new row is the one with its key. */
  lemma {:induction false} UpsertKeepsUnique(votes: seq<Vote>, v: Vote)
    requires UniqueVoteKeys(votes)
    ensures UniqueVoteKeys(Upsert(votes, v))
    ensures forall w :: w in Upsert(votes, v) && SameKey(w, v) ==> w == v
  {
    if votes != [] {
      var tail := votes[1..];
      UniqueKeysTail(votes);
      var r := Upsert(votes, v);
      if !SameKey(votes[0], v) {
        UpsertKeepsUnique(tail, v);
        UpsertMembers(tail, v);
        assert r == [votes[0]] + Upsert(tail, v);
        forall i, j | 0 <= i < j < |r| ensures !SameKey(r[i], r[j]) {
          if i == 0 {
            assert r[j] in Upsert(tail, v);
          } else {
            assert r[i] == Upsert(tail, v)[i - 1] && r[j] == Upsert(tail, v)[j - 1];
          }
        }
      } else {
        assert r == [v] + tail;
        forall i, j | 0 <= i < j < |r| ensures !SameKey(r[i], r[j]) {
          assert r[j] == tail[j - 1];
          if i > 0 {
            assert r[i] == tail[i - 1];
          } else {
            assert r[j] in tail;
          }
        }
      }
    }
  }

  /** Dropping the first vote keeps the keys unique, and no later vote shares the first one's key. */
  lemma UniqueKeysTail(votes: seq<Vote>)
    requires votes != [] && UniqueVoteKeys(votes)
    ensures UniqueVoteKeys(votes[1..])
    ensures forall w :: w in votes[1..] ==> !SameKey(votes[0], w)
  {
    var tail := votes[1..];
    forall i, j | 0 <= i < j < |tail| ensures !SameKey(tail[i], tail[j]) {
      assert tail[i] == votes[i + 1] && tail[j] == votes[j + 1];
    }
    forall w | w in tail ensures !SameKey(votes[0], w) {
      var k :| 0 <= k < |tail| && tail[k] == w;
      assert votes[k + 1] == w;
    }
  }

  /** After upserting a batch with distinct keys, each batch row is the one vote for its key. */
  lemma {:induction false} UpsertAllSpec(votes: seq<Vote>, rows: seq<Vote>)
    requires UniqueVoteKeys(votes) && UniqueVoteKeys(rows)
    ensures UniqueVoteKeys(UpsertAll(votes, rows))
    ensures forall v :: v in rows ==> v in UpsertAll(votes, rows)
    ensures forall v, w :: v in rows && w in UpsertAll(votes, rows) && SameKey(w, v) ==> w == v
    ensures forall w :: w in votes && (forall v :: v in rows ==> !SameKey(w, v)) ==> w in UpsertAll(votes, rows)
    ensures forall w :: w in UpsertAll(votes, rows) ==> w in rows || w in votes
    decreases |rows|
  {
    if rows != [] {
      var v := rows[0];
      var rest := rows[1..];
      UpsertSpec(votes, v);
      assert UniqueVoteKeys(rest) by {
        forall i, j | 0 <= i < j < |rest| ensures !SameKey(rest[i], rest[j]) {
          assert rest[i] == rows[i + 1] && rest[j] == rows[j + 1];
        }
      }
      forall w | w in rest ensures !SameKey(v, w) {
        var k :| 0 <= k < |rest| && rest[k] == w;
        assert rows[k + 1] == w;
      }
      UpsertAllSpec(Upsert(votes, v), rest);
      assert rows == [v] + rest;
    }
  }
}
