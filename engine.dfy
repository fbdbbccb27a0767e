/**
  The rules engine: win evaluation, the one-level lover cascade, night resolution,
  the day-vote tally, the night sequencer, role assignment and room-code generation.
 */
module Engine {
  import opened Types

  // ---------------------------------------------------------------------------
  // Player-list queries
  // ---------------------------------------------------------------------------

  /** The elements of `s` satisfying `keep`, in their original order (`Array.prototype.filter`). */
  function Filter<T(!new)>(s: seq<T>, keep: T -> bool): (r: seq<T>)
    ensures |r| <= |s|
    ensures forall x :: x in r <==> x in s && keep(x)
  {
    if s == [] then [] else (if keep(s[0]) then [s[0]] else []) + Filter(s[1..], keep)
  }

  lemma {:induction false} FilterAppend<T(!new)>(a: seq<T>, b: seq<T>, keep: T -> bool)
    ensures Filter(a + b, keep) == Filter(a, keep) + Filter(b, keep)
  {
    if a == [] {
      assert a + b == b;
    } else {
      assert (a + b)[1..] == a[1..] + b;
      FilterAppend(a[1..], b, keep);
    }
  }

  /** A filter that keeps no element returns nothing. */
  lemma {:induction false} FilterNone<T(!new)>(s: seq<T>, keep: T -> bool)
    requires forall j :: 0 <= j < |s| ==> !keep(s[j])
    ensures Filter(s, keep) == []
  {
    if s != [] {
      FilterNone(s[1..], keep);
    }
  }

  /** An element the filter keeps, when no other position is kept, is all the filter returns. */
  lemma {:induction false} FilterSole<T(!new)>(s: seq<T>, keep: T -> bool, i: nat)
    requires i < |s| && keep(s[i])
    requires forall j :: 0 <= j < |s| && j != i ==> !keep(s[j])
    ensures Filter(s, keep) == [s[i]]
  {
    if i == 0 {
      FilterNone(s[1..], keep);
    } else {
      FilterSole(s[1..], keep, i - 1);
    }
  }

  /** Two kept positions leave at least two elements. */
  lemma {:induction false} FilterPair<T(!new)>(s: seq<T>, keep: T -> bool, i: nat, j: nat)
    requires i < j < |s| && keep(s[i]) && keep(s[j])
    ensures |Filter(s, keep)| >= 2
  {
    if i == 0 {
      assert s[j] in s[1..];
    } else {
      FilterPair(s[1..], keep, i - 1, j - 1);
    }
  }

  predicate IsLiving(p: Player) { p.isAlive }
  predicate IsWolf(p: Player) { p.role == Some(LoupGarou) }
  predicate NotWolf(p: Player) { p.role != Some(LoupGarou) }

  function AliveOf(players: seq<Player>): seq<Player>
  {
    Filter(players, IsLiving)
  }

  predicate HasId(players: seq<Player>, id: Id)
  {
    exists p :: p in players && p.id == id
  }

  /** Player ids are the store's primary key: no two records share one. */
  predicate UniqueIds(players: seq<Player>)
  {
    forall i, j :: 0 <= i < j < |players| ==> players[i].id != players[j].id
  }

  /** The first player with the given id (`players.find`). */
  function FindPlayer(players: seq<Player>, id: Id): (r: Option<Player>)
    ensures r.Some? ==> r.value in players && r.value.id == id
    ensures r.None? <==> !HasId(players, id)
  {
    if players == [] then None
    else if players[0].id == id then Some(players[0])
    else FindPlayer(players[1..], id)
  }

  lemma {:induction false} FindUnique(players: seq<Player>, p: Player)
    requires UniqueIds(players) && p in players
    ensures FindPlayer(players, p.id) == Some(p)
  {
    if players[0] != p {
      assert players[0].id != p.id by {
        var k :| 0 <= k < |players| && players[k] == p;
      }
      assert p in players[1..];
      FindUnique(players[1..], p);
    }
  }

  lemma {:induction false} FilterKeepsUniqueIds(players: seq<Player>, keep: Player -> bool)
    requires UniqueIds(players)
    ensures UniqueIds(Filter(players, keep))
  {
    if players != [] {
      FilterKeepsUniqueIds(players[1..], keep);
      var rest := Filter(players[1..], keep);
      forall q | q in rest ensures q.id != players[0].id {
        var k :| 0 <= k < |players[1..]| && players[1..][k] == q;
        assert players[k + 1] == q;
      }
    }
  }

  // ---------------------------------------------------------------------------
  // Win evaluation (checkWinCondition)
  // ---------------------------------------------------------------------------

  function CheckWinCondition(players: seq<Player>, lovers: Option<(Id, Id)>): Option<Winner>
  {
    var alive := AliveOf(players);
    var wolves := Filter(alive, IsWolf);
    var villagers := Filter(alive, NotWolf);
    if |wolves| == 0 then Some(Villagers)
    else if |wolves| >= |villagers| then Some(Wolves)
    else if lovers.Some? && |alive| == 2 && HasId(alive, lovers.value.0) && HasId(alive, lovers.value.1)
    then Some(Lovers)
    else None
  }

  /** Living wolves, counted directly over the player records. */
  function LivingWolves(players: seq<Player>): nat
  {
    if players == [] then 0
    else (if players[0].isAlive && IsWolf(players[0]) then 1 else 0) + LivingWolves(players[1..])
  }

  /** Living players who are not wolves (an unassigned role counts as not a wolf). */
  function LivingOthers(players: seq<Player>): nat
  {
    if players == [] then 0
    else (if players[0].isAlive && !IsWolf(players[0]) then 1 else 0) + LivingOthers(players[1..])
  }

  lemma {:induction false} WolfSplit(s: seq<Player>)
    ensures |Filter(s, IsWolf)| + |Filter(s, NotWolf)| == |s|
  {
    if s != [] {
      WolfSplit(s[1..]);
    }
  }

  lemma {:induction false} LivingCountsAgree(players: seq<Player>)
    ensures |Filter(AliveOf(players), IsWolf)| == LivingWolves(players)
    ensures |Filter(AliveOf(players), NotWolf)| == LivingOthers(players)
  {
    if players != [] {
      var head := if IsLiving(players[0]) then [players[0]] else [];
      assert AliveOf(players) == head + AliveOf(players[1..]);
      FilterAppend(head, AliveOf(players[1..]), IsWolf);
      FilterAppend(head, AliveOf(players[1..]), NotWolf);
      LivingCountsAgree(players[1..]);
    }
  }

  /**
    The win check in the order the source tests: no living wolf is a villager win;
    otherwise wolves at parity or better win; otherwise the game goes on.
   */
  lemma WinOutcome(players: seq<Player>, lovers: Option<(Id, Id)>)
    ensures CheckWinCondition(players, lovers) == Some(Villagers) <==> LivingWolves(players) == 0
    ensures CheckWinCondition(players, lovers) == Some(Wolves) <==>
              0 < LivingWolves(players) && LivingOthers(players) <= LivingWolves(players)
    ensures CheckWinCondition(players, lovers) == None <==>
              0 < LivingWolves(players) < LivingOthers(players)
  {
    LivingCountsAgree(players);
    LoversNeverWin(players, lovers);
  }

  /**
    The "lovers" outcome cannot be produced: two survivors with at least one wolf
    already satisfy wolves >= others, and no wolf at all already returned "villagers".
   */
  lemma LoversNeverWin(players: seq<Player>, lovers: Option<(Id, Id)>)
    ensures CheckWinCondition(players, lovers) != Some(Lovers)
  {
    WolfSplit(AliveOf(players));
  }

  // ---------------------------------------------------------------------------
  // Lover cascade (getLoverCascade)
  // ---------------------------------------------------------------------------

  /** The other half of a bond, as seen from `victim` (the first id unless the victim is it). */
  function Partner(victim: Id, bond: (Id, Id)): Id
  {
    if victim == bond.0 then bond.1 else bond.0
  }

  function LoverCascade(victimId: Id, players: seq<Player>, lovers: Option<(Id, Id)>): Option<Id>
  {
    match lovers
    case None => None
    case Some(bond) =>
      if victimId != bond.0 && victimId != bond.1 then None
      else
        var otherId := Partner(victimId, bond);
        match FindPlayer(players, otherId)
        case None => None
        case Some(other) => if !other.isAlive then None else Some(otherId)
  }

  /**
    The cascade names the victim's partner exactly when there is a bond, the victim is
    half of it and the partner is a living player; it never names the victim itself
    when the bond joins two different players.
   */
  lemma CascadeIsLivingPartner(victimId: Id, players: seq<Player>, lovers: Option<(Id, Id)>)
    requires UniqueIds(players)
    ensures LoverCascade(victimId, players, lovers).Some? <==>
              && lovers.Some?
              && (victimId == lovers.value.0 || victimId == lovers.value.1)
              && exists p :: p in players && p.id == Partner(victimId, lovers.value) && p.isAlive
    ensures LoverCascade(victimId, players, lovers).Some? ==>
              LoverCascade(victimId, players, lovers).value == Partner(victimId, lovers.value)
    ensures LoverCascade(victimId, players, lovers).Some? && lovers.value.0 != lovers.value.1 ==>
              LoverCascade(victimId, players, lovers).value != victimId
  {
    if lovers.Some? && (victimId == lovers.value.0 || victimId == lovers.value.1) {
      var otherId := Partner(victimId, lovers.value);
      if p :| p in players && p.id == otherId && p.isAlive {
        FindUnique(players, p);
      }
    }
  }

  // ---------------------------------------------------------------------------
  // Night resolution (compileNightResult)
  // ---------------------------------------------------------------------------

  /** The first action of a type (`actions.find`): later duplicates are never looked at. */
  function FirstOfType(actions: seq<NightAction>, t: ActionType): (r: Option<NightAction>)
    ensures r.Some? ==> r.value in actions && r.value.actionType == t
    ensures r.None? <==> forall a :: a in actions ==> a.actionType != t
  {
    if actions == [] then None
    else if actions[0].actionType == t then Some(actions[0])
    else FirstOfType(actions[1..], t)
  }

  /** The action found is the one at the first position holding the type. */
  lemma {:induction false} FirstOfTypeIsFirst(actions: seq<NightAction>, t: ActionType, k: nat)
    requires k < |actions| && actions[k].actionType == t
    requires forall j :: 0 <= j < k ==> actions[j].actionType != t
    ensures FirstOfType(actions, t) == Some(actions[k])
  {
    if k > 0 {
      FirstOfTypeIsFirst(actions[1..], t, k - 1);
    }
  }

  lemma {:induction false} FirstOfTypePrefix(a: seq<NightAction>, b: seq<NightAction>, t: ActionType)
    ensures FirstOfType(a, t).Some? ==> FirstOfType(a + b, t) == FirstOfType(a, t)
    ensures FirstOfType(a, t).None? ==> FirstOfType(a + b, t) == FirstOfType(b, t)
  {
    if a == [] {
      assert a + b == b;
    } else {
      assert (a + b)[0] == a[0];
      if a[0].actionType != t {
        assert (a + b)[1..] == a[1..] + b;
        FirstOfTypePrefix(a[1..], b, t);
        assert FirstOfType(a + b, t) == FirstOfType(a[1..] + b, t);
        assert FirstOfType(a, t) == FirstOfType(a[1..], t);
      }
    }
  }

  /** `action?.target_id ?? null` */
  function TargetOf(a: Option<NightAction>): Option<Id>
  {
    if a.Some? then a.value.targetId else None
  }

  /** JavaScript truthiness of an optional id: present and not the empty string. */
  predicate Truthy(id: Option<Id>)
  {
    id.Some? && id.value != ""
  }

  /** The four actions night resolution looks at: the first one of each type. */
  datatype NightPicks = NightPicks(
    kill: Option<NightAction>,
    heal: Option<NightAction>,
    poison: Option<NightAction>,
    protect: Option<NightAction>)

  function Picks(actions: seq<NightAction>): NightPicks
  {
    NightPicks(FirstOfType(actions, Kill), FirstOfType(actions, Heal),
               FirstOfType(actions, Poison), FirstOfType(actions, Protect))
  }

  /** The kill target, when the kill action carries a (truthy) target. */
  function KillTarget(p: NightPicks): Option<Id>
  {
    if Truthy(TargetOf(p.kill)) then TargetOf(p.kill) else None
  }

  function PoisonTarget(p: NightPicks): Option<Id>
  {
    if Truthy(TargetOf(p.poison)) then TargetOf(p.poison) else None
  }

  /** The kill is neither prevented by the Garde's protection nor by the witch's heal. */
  predicate KillLands(p: NightPicks)
  {
    KillTarget(p).Some? && TargetOf(p.protect) != KillTarget(p) && TargetOf(p.heal) != KillTarget(p)
  }

  /** The name shown for an id in a night summary (`"???"` when no player has it). */
  function NameOf(players: seq<Player>, id: Id): string
  {
    match FindPlayer(players, id)
    case Some(p) => p.name
    case None => "???"
  }

  function NamesOf(players: seq<Player>, ids: seq<Id>): (names: seq<string>)
    ensures |names| == |ids|
    ensures forall k :: 0 <= k < |ids| ==> names[k] == NameOf(players, ids[k])
  {
    seq(|ids|, k requires 0 <= k < |ids| => NameOf(players, ids[k]))
  }

  /** The name a summary line announces a death of, if it announces one. */
  function LineVictim(line: SummaryLine): seq<string>
  {
    match line
    case Devoured(n) => [n]
    case Heartbreak(n) => [n]
    case Poisoned(n) => [n]
    case _ => []
  }

  /** The names mentioned by the summary lines that announce a death, in order. */
  function DeathNames(summary: seq<SummaryLine>): seq<string>
  {
    if summary == [] then []
    else DeathNames(summary[..|summary| - 1]) + LineVictim(summary[|summary| - 1])
  }

  lemma {:induction false} DeathNamesAppend(a: seq<SummaryLine>, b: seq<SummaryLine>)
    ensures DeathNames(a + b) == DeathNames(a) + DeathNames(b)
    decreases |b|
  {
    if b == [] {
      assert a + b == a;
    } else {
      assert (a + b)[..|a + b| - 1] == a + b[..|b| - 1];
      DeathNamesAppend(a, b[..|b| - 1]);
    }
  }

  lemma DeathNamesShort(x: SummaryLine, y: SummaryLine)
    ensures DeathNames([x]) == LineVictim(x)
    ensures DeathNames([x, y]) == LineVictim(x) + LineVictim(y)
  {
    assert [x][..0] == [];
    assert [x, y][..1] == [x];
  }

  function OptSeq(o: Option<Id>): seq<Id>
  {
    if o.Some? then [o.value] else []
  }

  /** The id is the partner that a cascade from `victim` kills. */
  predicate CascadeFrom(d: Id, victim: Option<Id>, players: seq<Player>, lovers: Option<(Id, Id)>)
  {
    victim.Some? && LoverCascade(victim.value, players, lovers) == Some(d)
  }

  /**
    The kill branch, as the deaths and lines it contributes. A protect on the kill target
    cancels the kill; otherwise a heal on it cancels it; otherwise the target dies, followed
    by its living bonded partner. With no kill action at all the line is "nothing happened";
    a kill action without a target contributes nothing.
   */
  function KillStage(p: NightPicks, players: seq<Player>, lovers: Option<(Id, Id)>)
    : (seq<Id>, seq<SummaryLine>)
  {
    if KillTarget(p).Some? then
      var tid := KillTarget(p).value;
      if TargetOf(p.protect) == Some(tid) then ([], [Protected(NameOf(players, tid))])
      else if TargetOf(p.heal) == Some(tid) then ([], [Saved])
      else
        var c := LoverCascade(tid, players, lovers);
        if c.Some? then ([tid, c.value], [Devoured(NameOf(players, tid)), Heartbreak(NameOf(players, c.value))])
        else ([tid], [Devoured(NameOf(players, tid))])
    else if p.kill.None? then ([], [Quiet])
    else ([], [])
  }

  /**
    The poison branch, applied after the kill branch: a poison target not yet dead is
    appended, then its living bonded partner unless already dead.
   */
  function PoisonStage(deaths: seq<Id>, summary: seq<SummaryLine>, poisonId: Option<Id>,
                       players: seq<Player>, lovers: Option<(Id, Id)>): (seq<Id>, seq<SummaryLine>)
  {
    if poisonId.Some? && poisonId.value !in deaths then
      var pid := poisonId.value;
      var c := LoverCascade(pid, players, lovers);
      if c.Some? && c.value !in deaths + [pid] then
        (deaths + [pid, c.value], summary + [Poisoned(NameOf(players, pid)), Heartbreak(NameOf(players, c.value))])
      else (deaths + [pid], summary + [Poisoned(NameOf(players, pid))])
    else (deaths, summary)
  }

  datatype NightResult = NightResult(deaths: seq<Id>, saved: bool, summary: seq<SummaryLine>)

  /** The kill branch, then the poison branch, then "nothing happened" if no line was written. */
  function Resolve(p: NightPicks, players: seq<Player>, lovers: Option<(Id, Id)>): NightResult
  {
    var kill := KillStage(p, players, lovers);
    var poison := PoisonStage(kill.0, kill.1, PoisonTarget(p), players, lovers);
    NightResult(poison.0, p.heal.Some?, if poison.1 == [] then [Quiet] else poison.1)
  }

  /** The deaths the kill branch causes: the target, then its cascade, unless the kill is stopped. */
  function KillDeaths(p: NightPicks, players: seq<Player>, lovers: Option<(Id, Id)>): seq<Id>
  {
    if KillLands(p) then [KillTarget(p).value] + OptSeq(LoverCascade(KillTarget(p).value, players, lovers))
    else []
  }

  lemma KillStageDeaths(p: NightPicks, players: seq<Player>, lovers: Option<(Id, Id)>)
    ensures KillStage(p, players, lovers).0 == KillDeaths(p, players, lovers)
  {
  }

  lemma PoisonStageExtends(deaths: seq<Id>, summary: seq<SummaryLine>, poisonId: Option<Id>,
                           players: seq<Player>, lovers: Option<(Id, Id)>)
    ensures var r := PoisonStage(deaths, summary, poisonId, players, lovers);
            && |r.0| >= |deaths| && r.0[..|deaths|] == deaths
            && |r.1| >= |summary| && r.1[..|summary|] == summary
            && (|r.0| == |deaths| ==> r.1 == summary)
            && (poisonId.Some? ==> poisonId.value in r.0)
            && (poisonId.None? || poisonId.value in deaths ==> r.0 == deaths)
  {
  }

  /**
    Protection beats the kill, the heal beats an unprotected kill, and an unprevented kill
    opens the death list with the target followed by its living bonded partner. The kill
    branch's summary line comes first.
   */
  lemma NightKillPriority(p: NightPicks, players: seq<Player>, lovers: Option<(Id, Id)>)
    ensures var r := Resolve(p, players, lovers);
            var k := KillTarget(p);
            && (k.Some? && TargetOf(p.protect) == k ==> r.summary[0] == Protected(NameOf(players, k.value)))
            && (k.Some? && TargetOf(p.protect) != k && TargetOf(p.heal) == k ==> r.summary[0] == Saved)
            && (KillLands(p) ==> r.summary[0] == Devoured(NameOf(players, k.value)))
            && (p.kill.None? ==> r.summary[0] == Quiet)
            && |r.deaths| >= |KillDeaths(p, players, lovers)|
            && r.deaths[..|KillDeaths(p, players, lovers)|] == KillDeaths(p, players, lovers)
  {
    var kill := KillStage(p, players, lovers);
    KillStageDeaths(p, players, lovers);
    PoisonStageExtends(kill.0, kill.1, PoisonTarget(p), players, lovers);
  }

  /**
    The poison lands independently of the kill's fate; a poison target already dead adds
    nothing, so without a fresh poison victim the deaths are exactly the kill's.
   */
  lemma NightPoison(p: NightPicks, players: seq<Player>, lovers: Option<(Id, Id)>)
    ensures var r := Resolve(p, players, lovers);
            && (PoisonTarget(p).Some? ==> PoisonTarget(p).value in r.deaths)
            && (PoisonTarget(p).None? || PoisonTarget(p).value in KillDeaths(p, players, lovers) ==>
                  r.deaths == KillDeaths(p, players, lovers))
  {
    var kill := KillStage(p, players, lovers);
    KillStageDeaths(p, players, lovers);
    PoisonStageExtends(kill.0, kill.1, PoisonTarget(p), players, lovers);
  }

  /** The summary is never empty: "nothing happened" when no kill action exists or nothing was written. */
  lemma NightSummaryNeverEmpty(p: NightPicks, players: seq<Player>, lovers: Option<(Id, Id)>)
    ensures var r := Resolve(p, players, lovers);
            && |r.summary| >= 1
            && (r.deaths == [] && KillTarget(p).None? ==> r.summary == [Quiet])
            && (r.saved <==> p.heal.Some?)
  {
    var kill := KillStage(p, players, lovers);
    PoisonStageExtends(kill.0, kill.1, PoisonTarget(p), players, lovers);
  }

  /** With a bond between two different players, nobody appears twice in the deaths. */
  lemma NightDeathsDistinct(p: NightPicks, players: seq<Player>, lovers: Option<(Id, Id)>)
    requires lovers.Some? ==> lovers.value.0 != lovers.value.1
    ensures Distinct(Resolve(p, players, lovers).deaths)
  {
    var kill := KillStage(p, players, lovers);
    KillStageDeaths(p, players, lovers);
    var k := KillDeaths(p, players, lovers);
    assert Distinct(k) by {
      if KillLands(p) && LoverCascade(KillTarget(p).value, players, lovers).Some? {
        assert LoverCascade(KillTarget(p).value, players, lovers).value != KillTarget(p).value;
      }
    }
    var pt := PoisonTarget(p);
    if pt.Some? && pt.value !in k {
      var c := LoverCascade(pt.value, players, lovers);
      if c.Some? && c.value !in k + [pt.value] {
        var d := k + [pt.value, c.value];
        forall i, j | 0 <= i < j < |d| ensures d[i] != d[j] {
          if j == |k| + 1 {
            assert d[j] == c.value && d[i] in k + [pt.value];
          } else if j == |k| {
            assert d[i] in k;
          }
        }
      } else {
        var d := k + [pt.value];
        forall i, j | 0 <= i < j < |d| ensures d[i] != d[j] {
          if j == |k| {
            assert d[i] in k;
          }
        }
      }
    }
  }

  lemma KillStageAnnounced(p: NightPicks, players: seq<Player>, lovers: Option<(Id, Id)>)
    ensures var kill := KillStage(p, players, lovers);
            DeathNames(kill.1) == NamesOf(players, kill.0)
  {
    if KillTarget(p).Some? {
      var tid := KillTarget(p).value;
      if TargetOf(p.protect) == Some(tid) {
        DeathNamesShort(Protected(NameOf(players, tid)), Saved);
      } else if TargetOf(p.heal) == Some(tid) {
        DeathNamesShort(Saved, Saved);
      } else {
        var c := LoverCascade(tid, players, lovers);
        var l1 := Devoured(NameOf(players, tid));
        if c.Some? {
          DeathNamesShort(l1, Heartbreak(NameOf(players, c.value)));
        } else {
          DeathNamesShort(l1, l1);
        }
      }
    } else {
      DeathNamesShort(Quiet, Quiet);
    }
  }

  /** Announcing more deaths in order keeps the summary and the death list in step. */
  lemma AnnouncedAppend(deaths: seq<Id>, summary: seq<SummaryLine>, ids: seq<Id>, lines: seq<SummaryLine>,
                        players: seq<Player>)
    requires DeathNames(summary) == NamesOf(players, deaths)
    requires DeathNames(lines) == NamesOf(players, ids)
    ensures DeathNames(summary + lines) == NamesOf(players, deaths + ids)
  {
    DeathNamesAppend(summary, lines);
    NamesOfAppend(players, deaths, ids);
  }

  lemma NamesOfAppend(players: seq<Player>, a: seq<Id>, b: seq<Id>)
    ensures NamesOf(players, a + b) == NamesOf(players, a) + NamesOf(players, b)
  {
    var l := NamesOf(players, a + b);
    var r := NamesOf(players, a) + NamesOf(players, b);
    forall k | 0 <= k < |l|
      ensures l[k] == r[k]
    {
      if k < |a| {
        assert (a + b)[k] == a[k];
      } else {
        assert (a + b)[k] == b[k - |a|];
      }
    }
  }

  lemma PoisonStageAnnounced(deaths: seq<Id>, summary: seq<SummaryLine>, poisonId: Option<Id>,
                             players: seq<Player>, lovers: Option<(Id, Id)>)
    requires DeathNames(summary) == NamesOf(players, deaths)
    ensures var r := PoisonStage(deaths, summary, poisonId, players, lovers);
            DeathNames(r.1) == NamesOf(players, r.0)
  {
    if poisonId.Some? && poisonId.value !in deaths {
      var pid := poisonId.value;
      var c := LoverCascade(pid, players, lovers);
      if c.Some? && c.value !in deaths + [pid] {
        PoisonPairAnnounced(deaths, summary, pid, c.value, players);
      } else {
        PoisonOneAnnounced(deaths, summary, pid, players);
      }
    }
  }

  lemma PoisonOneAnnounced(deaths: seq<Id>, summary: seq<SummaryLine>, pid: Id, players: seq<Player>)
    requires DeathNames(summary) == NamesOf(players, deaths)
    ensures DeathNames(summary + [Poisoned(NameOf(players, pid))]) == NamesOf(players, deaths + [pid])
  {
    var l1 := Poisoned(NameOf(players, pid));
    DeathNamesShort(l1, l1);
    assert NamesOf(players, [pid]) == [NameOf(players, pid)];
    AnnouncedAppend(deaths, summary, [pid], [l1], players);
  }

  lemma PoisonPairAnnounced(deaths: seq<Id>, summary: seq<SummaryLine>, pid: Id, cid: Id, players: seq<Player>)
    requires DeathNames(summary) == NamesOf(players, deaths)
    ensures DeathNames(summary + [Poisoned(NameOf(players, pid)), Heartbreak(NameOf(players, cid))])
         == NamesOf(players, deaths + [pid, cid])
  {
    var l1 := Poisoned(NameOf(players, pid));
    var l2 := Heartbreak(NameOf(players, cid));
    DeathNamesShort(l1, l2);
    assert NamesOf(players, [pid, cid]) == [NameOf(players, pid), NameOf(players, cid)];
    AnnouncedAppend(deaths, summary, [pid, cid], [l1, l2], players);
  }

  /** Every death is announced by exactly one summary line naming the dead player, in order. */
  lemma NightDeathsAnnounced(p: NightPicks, players: seq<Player>, lovers: Option<(Id, Id)>)
    ensures var r := Resolve(p, players, lovers);
            DeathNames(r.summary) == NamesOf(players, r.deaths)
  {
    var kill := KillStage(p, players, lovers);
    KillStageAnnounced(p, players, lovers);
    PoisonStageAnnounced(kill.0, kill.1, PoisonTarget(p), players, lovers);
    DeathNamesShort(Quiet, Quiet);
  }

  /**
    Somebody dies exactly when they are the landed kill target, the poison target, or the
    living partner of one of them.
   */
  lemma NightDeathsAccountedFor(p: NightPicks, players: seq<Player>, lovers: Option<(Id, Id)>)
    ensures forall d :: d in Resolve(p, players, lovers).deaths <==>
              || (KillLands(p) && Some(d) == KillTarget(p))
              || Some(d) == PoisonTarget(p)
              || (KillLands(p) && CascadeFrom(d, KillTarget(p), players, lovers))
              || CascadeFrom(d, PoisonTarget(p), players, lovers)
  {
    KillStageDeaths(p, players, lovers);
  }

  /** compileNightResult as a value: resolve the first action of each type. */
  function NightOutcome(actions: seq<NightAction>, players: seq<Player>, lovers: Option<(Id, Id)>)
    : NightResult
  {
    Resolve(Picks(actions), players, lovers)
  }

  /**
    Only the first action of each type is consulted: appending actions whose types
    already occur changes nothing.
   */
  lemma OnlyFirstActionOfEachType(actions: seq<NightAction>, more: seq<NightAction>,
                                  players: seq<Player>, lovers: Option<(Id, Id)>)
    requires forall a :: a in more ==> FirstOfType(actions, a.actionType).Some?
    ensures NightOutcome(actions + more, players, lovers) == NightOutcome(actions, players, lovers)
  {
    FirstOfTypePrefix(actions, more, Kill);
    FirstOfTypePrefix(actions, more, Heal);
    FirstOfTypePrefix(actions, more, Poison);
    FirstOfTypePrefix(actions, more, Protect);
    assert Picks(actions + more) == Picks(actions);
  }

  /** compileNightResult: the deaths and summary arrays are built by successive pushes. */
  method CompileNightResult(actions: seq<NightAction>, players: seq<Player>, lovers: Option<(Id, Id)>)
    returns (deaths: seq<Id>, saved: bool, summary: seq<SummaryLine>)
    ensures NightResult(deaths, saved, summary) == NightOutcome(actions, players, lovers)
  {
    var wolfKill := FirstOfType(actions, Kill);
    var heal := FirstOfType(actions, Heal);
    var poison := FirstOfType(actions, Poison);
    var protect := FirstOfType(actions, Protect);
    var p := NightPicks(wolfKill, heal, poison, protect);
    deaths, summary := CompileKill(p, players, lovers);
    deaths, summary := CompilePoison(deaths, summary, poison, players, lovers);
    if |summary| == 0 {
      summary := summary + [Quiet];
    }
    saved := heal.Some?;
  }

  /** The kill block of compileNightResult. */
  method CompileKill(p: NightPicks, players: seq<Player>, lovers: Option<(Id, Id)>)
    returns (deaths: seq<Id>, summary: seq<SummaryLine>)
    ensures (deaths, summary) == KillStage(p, players, lovers)
  {
    deaths := [];
    summary := [];
    var protectedId := TargetOf(p.protect);
    if Truthy(TargetOf(p.kill)) {
      var tid := TargetOf(p.kill).value;
      assert KillTarget(p) == Some(tid);
      if protectedId == Some(tid) {
        summary := summary + [Protected(NameOf(players, tid))];
        assert summary == [Protected(NameOf(players, tid))];
      } else if TargetOf(p.heal) == Some(tid) {
        summary := summary + [Saved];
        assert summary == [Saved];
      } else {
        deaths := deaths + [tid];
        summary := summary + [Devoured(NameOf(players, tid))];
        var c := LoverCascade(tid, players, lovers);
        if c.Some? {
          deaths := deaths + [c.value];
          summary := summary + [Heartbreak(NameOf(players, c.value))];
          assert deaths == [tid, c.value];
          assert summary == [Devoured(NameOf(players, tid)), Heartbreak(NameOf(players, c.value))];
        } else {
          assert deaths == [tid] && summary == [Devoured(NameOf(players, tid))];
        }
      }
    } else if p.kill.None? {
      summary := summary + [Quiet];
      assert summary == [Quiet];
    } else {
      assert KillTarget(p).None?;
    }
  }

  /** The poison block of compileNightResult, after the kill block wrote `deaths0` and `summary0`. */
  method CompilePoison(deaths0: seq<Id>, summary0: seq<SummaryLine>, poison: Option<NightAction>,
                       players: seq<Player>, lovers: Option<(Id, Id)>)
    returns (deaths: seq<Id>, summary: seq<SummaryLine>)
    ensures (deaths, summary)
         == PoisonStage(deaths0, summary0, if Truthy(TargetOf(poison)) then TargetOf(poison) else None, players, lovers)
  {
    deaths := deaths0;
    summary := summary0;
    if Truthy(TargetOf(poison)) {
      var pid := TargetOf(poison).value;
      if pid !in deaths {
        deaths := deaths + [pid];
        summary := summary + [Poisoned(NameOf(players, pid))];
        var c := LoverCascade(pid, players, lovers);
        if c.Some? && c.value !in deaths {
          deaths := deaths + [c.value];
          summary := summary + [Heartbreak(NameOf(players, c.value))];
          assert deaths == deaths0 + [pid, c.value];
          assert summary == summary0 + [Poisoned(NameOf(players, pid)), Heartbreak(NameOf(players, c.value))];
        }
      }
    }
  }

  // ---------------------------------------------------------------------------
  // Vote tally

  /** The number of votes cast against `t`. */
  function VoteCount(votes: seq<Vote>, t: Id): nat
  {
    if votes == [] then 0
    else VoteCount(votes[..|votes| - 1], t) + (if votes[|votes| - 1].targetId == t then 1 else 0)
  }

  /** `t` received votes and nobody received more. */
  ghost predicate IsTop(votes: seq<Vote>, t: Id)
  {
    VoteCount(votes, t) > 0 && forall u :: VoteCount(votes, u) <= VoteCount(votes, t)
  }

  /** `t` received strictly more votes than anybody else. */
  ghost predicate UniqueTop(votes: seq<Vote>, t: Id)
  {
    VoteCount(votes, t) > 0 && forall u :: u != t ==> VoteCount(votes, u) < VoteCount(votes, t)
  }

  /** Two different targets share the highest count. */
  ghost predicate IsTie(votes: seq<Vote>)
  {
    exists a, b :: a != b && IsTop(votes, a) && IsTop(votes, b)
  }

  lemma VoteCountStep(votes: seq<Vote>, i: nat, t: Id)
    requires i < |votes|
    ensures VoteCount(votes[..i + 1], t) == VoteCount(votes[..i], t) + (if votes[i].targetId == t then 1 else 0)
  {
    assert votes[..i + 1][..i] == votes[..i];
  }

  /** Whoever a ballot names has at least one vote. */
  lemma {:induction false} VoteCountPositive(votes: seq<Vote>, k: nat)
    requires k < |votes|
    ensures VoteCount(votes, votes[k].targetId) > 0
    decreases |votes|
  {
    if k < |votes| - 1 {
      var prefix := votes[..|votes| - 1];
      assert prefix[k] == votes[k];
      VoteCountPositive(prefix, k);
    }
  }

  /**
    Once `max` bounds every count and `top` lists exactly the targets reaching it, a single
    entry is the unique top and several entries are a tie.
   */
  lemma TopDecides(votes: seq<Vote>, counts: map<Id, nat>, keys: seq<Id>, max: nat, top: seq<Id>)
    requires forall t :: t in counts <==> VoteCount(votes, t) > 0
    requires forall t :: t in counts ==> counts[t] == VoteCount(votes, t)
    requires forall t :: t in counts <==> t in keys
    requires |keys| == |counts|
    requires forall k :: 0 <= k < |keys| ==> counts[keys[k]] <= max
    requires Distinct(top)
    requires forall t :: t in top <==> t in keys && counts[t] == max
    requires |keys| > 0 ==> max > 0 && top != []
    requires |keys| == 0 ==> max == 0 && top == []
    ensures var tie := |top| > 1;
            var eliminated := if tie then None else if |top| > 0 then Some(top[0]) else None;
            && (tie <==> IsTie(votes))
            && (forall t :: UniqueTop(votes, t) <==> eliminated == Some(t))
            && (votes != [] ==> (eliminated.Some? <==> !tie))
            && (votes == [] ==> eliminated.None? && !tie && counts == map[])
  {
    assert Bounded: forall u :: VoteCount(votes, u) <= max by {
      forall u ensures VoteCount(votes, u) <= max {
        if u in counts {
          var k :| 0 <= k < |keys| && keys[k] == u;
        }
      }
    }
    if votes == [] {
      assert !IsTie(votes);
      assert forall t :: t !in counts;
      assert counts.Keys == {};
      assert counts == map[];
    } else {
      VoteCountPositive(votes, 0);
      var m := top[0];
      assert VoteCount(votes, m) == max;
      forall a | IsTop(votes, a) ensures a in top {
        assert VoteCount(votes, a) >= VoteCount(votes, m);
      }
      if |top| > 1 {
        assert top[0] != top[1];
        assert IsTop(votes, top[0]) && IsTop(votes, top[1]);
        forall t ensures !UniqueTop(votes, t) {
          assert VoteCount(votes, top[1]) == max;
          assert top[0] != t || top[1] != t;
        }
      } else {
        assert top == [m];
        assert UniqueTop(votes, m) by {
          forall u | u != m ensures VoteCount(votes, u) < VoteCount(votes, m) {
            assert VoteCount(votes, u) == max ==> u in counts && u in top;
          }
        }
        forall t | UniqueTop(votes, t) ensures t == m {
          assert t != m ==> VoteCount(votes, m) < VoteCount(votes, t);
        }
      }
    }
  }

  /**
    The counting loop of tallyVotes: one entry per voted-for target, keys listed in the
    order in which targets first appear.
   */
  method CountVotes(votes: seq<Vote>) returns (counts: map<Id, nat>, keys: seq<Id>)
    ensures forall t :: t in counts <==> VoteCount(votes, t) > 0
    ensures forall t :: t in counts ==> counts[t] == VoteCount(votes, t)
    ensures Distinct(keys)
    ensures forall t :: t in counts <==> t in keys
    ensures |keys| == |counts|
  {
    counts := map[];
    keys := [];
    var i := 0;
    while i < |votes|
      invariant 0 <= i <= |votes|
      invariant forall t :: t in counts <==> VoteCount(votes[..i], t) > 0
      invariant forall t :: t in counts ==> counts[t] == VoteCount(votes[..i], t)
      invariant Distinct(keys)
      invariant forall t :: t in counts <==> t in keys
      invariant |keys| == |counts|
    {
      var target := votes[i].targetId;
      forall t ensures VoteCount(votes[..i + 1], t) == VoteCount(votes[..i], t) + (if target == t then 1 else 0) {
        VoteCountStep(votes, i, t);
      }
      if target !in counts {
        keys := keys + [target];
      }
      counts := counts[target := (if target in counts then counts[target] else 0) + 1];
      i := i + 1;
    }
    assert votes[..i] == votes;
  }

  /**
    tallyVotes: count the votes per target (keys in first-appearance order), then keep the
    targets with the highest count. A single one is eliminated; several are a tie. The
    `players` argument is accepted and not consulted.
   */
  method TallyVotes(votes: seq<Vote>, players: seq<Player>)
    returns (eliminated: Option<Id>, counts: map<Id, nat>, tie: bool)
    ensures forall t :: t in counts <==> VoteCount(votes, t) > 0
    ensures forall t :: t in counts ==> counts[t] == VoteCount(votes, t)
    ensures tie <==> IsTie(votes)
    ensures forall t :: UniqueTop(votes, t) <==> eliminated == Some(t)
    ensures votes != [] ==> (eliminated.Some? <==> !tie)
    ensures votes == [] ==> eliminated.None? && !tie && counts == map[]
  {
    var keys;
    counts, keys := CountVotes(votes);
    var max: nat := 0;
    var top: seq<Id> := [];
    var j := 0;
    while j < |keys|
      invariant 0 <= j <= |keys|
      invariant forall k :: 0 <= k < j ==> counts[keys[k]] <= max
      invariant Distinct(top)
      invariant forall t :: t in top <==> t in keys[..j] && counts[t] == max
      invariant j > 0 ==> max > 0 && top != []
      invariant j == 0 ==> max == 0 && top == []
    {
      var id := keys[j];
      assert id !in keys[..j];
      assert keys[..j + 1] == keys[..j] + [id];
      if counts[id] > max {
        max := counts[id];
        top := [id];
      } else if counts[id] == max {
        top := top + [id];
      }
      j := j + 1;
    }
    assert keys[..j] == keys;
    tie := |top| > 1;
    eliminated := if tie then None else if |top| > 0 then Some(top[0]) else None;
    TopDecides(votes, counts, keys, max, top);
  }

  // ---------------------------------------------------------------------------
  // Night sequencer

  /** Some player of the list holds role `r` (membership in the set of their roles). */
  predicate Holds(players: seq<Player>, r: RoleName)
  {
    exists p :: p in players && p.role == Some(r)
  }

  /** The roles of `order` that are neither completed nor unheld, in the order given. */
  function Pending(order: seq<RoleName>, completed: seq<RoleName>, players: seq<Player>): seq<RoleName>
  {
    if order == [] then []
    else
      (if order[0] !in completed && Holds(players, order[0]) then [order[0]] else [])
      + Pending(order[1..], completed, players)
  }

  lemma {:induction false} PendingMembers(order: seq<RoleName>, completed: seq<RoleName>, players: seq<Player>)
    ensures forall r :: r in Pending(order, completed, players) <==>
              r in order && r !in completed && Holds(players, r)
  {
    if order != [] {
      PendingMembers(order[1..], completed, players);
      assert order == [order[0]] + order[1..];
    }
  }

  /** The first role of `order` that is not completed and is held by one of `players`. */
  function FirstPending(order: seq<RoleName>, completed: seq<RoleName>, players: seq<Player>)
    : (r: Option<RoleName>)
    ensures r.None? <==> Pending(order, completed, players) == []
    ensures r.Some? ==> r.value == Pending(order, completed, players)[0]
  {
    if order == [] then None
    else if order[0] !in completed && Holds(players, order[0]) then Some(order[0])
    else FirstPending(order[1..], completed, players)
  }

  /** In an order without repeats, every role before the first pending one is completed or unheld. */
  lemma {:induction false} FirstPendingIsFirst(order: seq<RoleName>, completed: seq<RoleName>,
                                               players: seq<Player>, k: nat)
    requires Distinct(order) && k < |order|
    requires FirstPending(order, completed, players) == Some(order[k])
    ensures forall j :: 0 <= j < k ==> order[j] in completed || !Holds(players, order[j])
  {
    if k > 0 {
      assert order[0] != order[k];
      var tail := order[1..];
      assert Distinct(tail) by {
        forall i, j | 0 <= i < j < |tail| ensures tail[i] != tail[j] {
          assert tail[i] == order[i + 1] && tail[j] == order[j + 1];
        }
      }
      FirstPendingIsFirst(tail, completed, players, k - 1);
      assert forall j :: 1 <= j < k ==> order[j] == tail[j - 1];
    }
  }

  /** getNextNightRole: the first role in the night order still to play among the living. */
  function NextNightRole(completed: seq<RoleName>, alive: seq<Player>): Option<RoleName>
  {
    FirstPending(NightOrder, completed, alive)
  }

  /**
    The next role is not completed, is held by a living player, and every role earlier in the
    night order is completed or unheld; there is none exactly when no role remains.
   */
  lemma NextNightRoleSpec(completed: seq<RoleName>, alive: seq<Player>)
    ensures var r := NextNightRole(completed, alive);
            && (r.Some? ==> r.value in NightOrder && r.value !in completed && Holds(alive, r.value))
            && (r.None? <==> forall q :: q in NightOrder ==> q in completed || !Holds(alive, q))
            && forall j, k :: 0 <= j < k < |NightOrder| && r == Some(NightOrder[k]) ==>
                 NightOrder[j] in completed || !Holds(alive, NightOrder[j])
  {
    NightOrderMatchesCatalog();
    forall k | 0 <= k < |NightOrder| && NextNightRole(completed, alive) == Some(NightOrder[k]) {
      FirstPendingIsFirst(NightOrder, completed, alive, k);
    }
    PendingMembers(NightOrder, completed, alive);
    var pend := Pending(NightOrder, completed, alive);
    if pend != [] {
      assert pend[0] in pend;
    }
  }

  /** The night-order roles not yet completed. */
  function RemainingRoles(completed: seq<RoleName>): set<RoleName>
  {
    set q | q in NightOrder && q !in completed
  }

  /**
    The roles a night wakes up, one after the other, when every report appends the role
    just played to the completed list.
   */
  function NightSchedule(completed: seq<RoleName>, alive: seq<Player>): seq<RoleName>
    decreases |RemainingRoles(completed)|
  {
    match NextNightRole(completed, alive)
    case None => []
    case Some(r) =>
      NextNightRoleSpec(completed, alive);
      assert RemainingRoles(completed + [r]) == RemainingRoles(completed) - {r};
      assert r in RemainingRoles(completed);
      [r] + NightSchedule(completed + [r], alive)
  }

  lemma {:induction false} PendingIgnoresAbsent(order: seq<RoleName>, completed: seq<RoleName>,
                                                players: seq<Player>, r: RoleName)
    requires r !in order
    ensures Pending(order, completed + [r], players) == Pending(order, completed, players)
  {
    if order != [] {
      PendingIgnoresAbsent(order[1..], completed, players, r);
    }
  }

  /** Completing the first pending role of a duplicate-free order drops exactly that role. */
  lemma {:induction false} PendingAfter(order: seq<RoleName>, completed: seq<RoleName>,
                                        players: seq<Player>)
    requires Distinct(order)
    requires Pending(order, completed, players) != []
    ensures var pend := Pending(order, completed, players);
            Pending(order, completed + [pend[0]], players) == pend[1..]
  {
    var pend := Pending(order, completed, players);
    var r := pend[0];
    assert Distinct(order[1..]) by {
      forall i, j | 0 <= i < j < |order[1..]| ensures order[1..][i] != order[1..][j] {
        assert order[1..][i] == order[i + 1] && order[1..][j] == order[j + 1];
      }
    }
    if order[0] !in completed && Holds(players, order[0]) {
      assert r == order[0];
      assert r !in order[1..] by {
        forall k | 0 <= k < |order[1..]| ensures order[1..][k] != r {
          assert order[1..][k] == order[k + 1];
        }
      }
      PendingIgnoresAbsent(order[1..], completed, players, r);
    } else {
      PendingAfter(order[1..], completed, players);
    }
  }

  /** Successive calls with an accumulating completed list wake exactly the pending roles. */
  lemma {:induction false} ScheduleIsPending(completed: seq<RoleName>, alive: seq<Player>)
    ensures NightSchedule(completed, alive) == Pending(NightOrder, completed, alive)
    decreases |RemainingRoles(completed)|
  {
    match NextNightRole(completed, alive)
    case None =>
    case Some(r) =>
      NightOrderMatchesCatalog();
      NextNightRoleSpec(completed, alive);
      assert RemainingRoles(completed + [r]) == RemainingRoles(completed) - {r};
      assert r in RemainingRoles(completed);
      PendingAfter(NightOrder, completed, alive);
      ScheduleIsPending(completed + [r], alive);
  }

  /** The position of a role in the night order (0 for roles without a night turn). */
  function NightPosition(r: RoleName): nat
  {
    if Roles(r).nightOrder.Some? then Roles(r).nightOrder.value else 0
  }

  ghost predicate StrictlyByPosition(s: seq<RoleName>)
  {
    forall i, j :: 0 <= i < j < |s| ==> NightPosition(s[i]) < NightPosition(s[j])
  }

  lemma {:induction false} PendingKeepsOrder(order: seq<RoleName>, completed: seq<RoleName>, players: seq<Player>)
    requires StrictlyByPosition(order)
    ensures StrictlyByPosition(Pending(order, completed, players))
    ensures forall r :: r in Pending(order, completed, players) ==> r in order
  {
    if order != [] {
      var tail := order[1..];
      assert StrictlyByPosition(tail) by {
        forall i, j | 0 <= i < j < |tail| ensures NightPosition(tail[i]) < NightPosition(tail[j]) {
          assert tail[i] == order[i + 1] && tail[j] == order[j + 1];
        }
      }
      PendingKeepsOrder(tail, completed, players);
      var rest := Pending(tail, completed, players);
      forall r | r in rest ensures NightPosition(order[0]) < NightPosition(r) {
        var k :| 0 <= k < |tail| && tail[k] == r;
        assert tail[k] == order[k + 1];
      }
      var p := Pending(order, completed, players);
      if order[0] !in completed && Holds(players, order[0]) {
        assert p == [order[0]] + rest;
        forall i, j | 0 <= i < j < |p| ensures NightPosition(p[i]) < NightPosition(p[j]) {
          assert p[j] == rest[j - 1];
          if i > 0 {
            assert p[i] == rest[i - 1];
          }
        }
      } else {
        assert p == rest;
      }
    }
  }

  /**
    Over one night every role of the night order held by a living player is woken exactly
    once, in strictly increasing night position; no other role is woken.
   */
  lemma NightVisitsEachPresentRoleOnce(alive: seq<Player>)
    ensures var s := NightSchedule([], alive);
            && (forall r :: r in s <==> r in NightOrder && Holds(alive, r))
            && StrictlyByPosition(s)
            && Distinct(s)
  {
    ScheduleIsPending([], alive);
    PendingMembers(NightOrder, [], alive);
    NightOrderMatchesCatalog();
    PendingKeepsOrder(NightOrder, [], alive);
  }

  // ---------------------------------------------------------------------------
  // Role assignment

  function Repeat(r: RoleName, n: nat): (s: seq<RoleName>)
    ensures |s| == n && forall k :: 0 <= k < n ==> s[k] == r
  {
    seq(n, k => r)
  }

  /** The number of iterations of `for (i = 0; i < count; i++)`. */
  function Clamp(count: int): nat
  {
    if count > 0 then count else 0
  }

  /** The role pool before shuffling: each entry's role, repeated by its count, entry after entry. */
  function PoolOf(config: seq<ConfigEntry>): seq<RoleName>
  {
    if config == [] then []
    else PoolOf(config[..|config| - 1]) + Repeat(config[|config| - 1].role, Clamp(config[|config| - 1].count))
  }

  /** How many copies of `r` the configuration asks for, over all its entries. */
  function RoleCount(config: seq<ConfigEntry>, r: RoleName): nat
  {
    if config == [] then 0
    else RoleCount(config[..|config| - 1], r)
         + (if config[|config| - 1].role == r then Clamp(config[|config| - 1].count) else 0)
  }

  lemma RepeatMultiset(r: RoleName, n: nat, q: RoleName)
    ensures multiset(Repeat(r, n))[q] == if q == r then n else 0
  {
    if n > 0 {
      assert Repeat(r, n) == Repeat(r, n - 1) + [r];
      RepeatMultiset(r, n - 1, q);
    } else {
      assert Repeat(r, n) == [];
    }
  }

  /** The pool holds each role exactly as often as the configuration asks for it. */
  lemma {:induction false} PoolMultiplicity(config: seq<ConfigEntry>, r: RoleName)
    ensures multiset(PoolOf(config))[r] == RoleCount(config, r)
  {
    if config != [] {
      var last := config[|config| - 1];
      PoolMultiplicity(config[..|config| - 1], r);
      RepeatMultiset(last.role, Clamp(last.count), r);
    }
  }

  /** When each role is configured once, its pool multiplicity is its configured count (0 if negative). */
  lemma {:induction false} ConfiguredCount(config: seq<ConfigEntry>, k: nat)
    requires k < |config|
    requires Distinct(ConfigRoles(config))
    ensures RoleCount(config, config[k].role) == Clamp(config[k].count)
  {
    var init := config[..|config| - 1];
    assert Distinct(ConfigRoles(init)) by {
      forall i, j | 0 <= i < j < |init| ensures ConfigRoles(init)[i] != ConfigRoles(init)[j] {
        assert ConfigRoles(init)[i] == ConfigRoles(config)[i] && ConfigRoles(init)[j] == ConfigRoles(config)[j];
      }
    }
    if k < |config| - 1 {
      assert init[k] == config[k];
      assert ConfigRoles(config)[k] != ConfigRoles(config)[|config| - 1];
      ConfiguredCount(init, k);
    } else {
      RoleAbsent(init, config[k].role);
    }
  }

  lemma {:induction false} RoleAbsent(config: seq<ConfigEntry>, r: RoleName)
    requires forall i :: 0 <= i < |config| ==> config[i].role != r
    ensures RoleCount(config, r) == 0
  {
    if config != [] {
      RoleAbsent(config[..|config| - 1], r);
    }
  }

  /**
    The pool is at least as long as the configured total, and exactly as long when no count
    is negative; so the start route's total check leaves no player without a role.
   */
  lemma {:induction false} PoolCoversTotal(config: seq<ConfigEntry>)
    ensures |PoolOf(config)| >= ConfigTotal(config)
    ensures (forall i :: 0 <= i < |config| ==> config[i].count >= 0) ==> |PoolOf(config)| == ConfigTotal(config)
  {
    if config != [] {
      PoolCoversTotal(config[..|config| - 1]);
    }
  }

  /** The first loop of assignRoles: push each role `count` times, entry after entry. */
  method BuildPool(config: seq<ConfigEntry>) returns (pool: seq<RoleName>)
    ensures pool == PoolOf(config)
  {
    pool := [];
    var e := 0;
    while e < |config|
      invariant 0 <= e <= |config|
      invariant pool == PoolOf(config[..e])
    {
      var role := config[e].role;
      var count := config[e].count;
      var i := 0;
      while i < count
        invariant 0 <= i <= Clamp(count)
        invariant pool == PoolOf(config[..e]) + Repeat(role, i)
      {
        pool := pool + [role];
        i := i + 1;
        assert Repeat(role, i) == Repeat(role, i - 1) + [role];
      }
      assert config[..e + 1][..e] == config[..e];
      e := e + 1;
    }
    assert config[..e] == config;
  }

  /**
    The in-place shuffle: walk down from the last slot, swapping each slot with an arbitrary
    slot at or below it (the random index of the source).
   */
  method ShufflePool(a: array<RoleName>)
    modifies a
    ensures multiset(a[..]) == multiset(old(a[..]))
  {
    var i := a.Length - 1;
    while i > 0
      invariant -1 <= i < a.Length || a.Length == 0
      invariant multiset(a[..]) == multiset(old(a[..]))
    {
      var j :| 0 <= j <= i;
      a[i], a[j] := a[j], a[i];
      i := i - 1;
    }
  }

  /** `pool[idx]`, or `undefined` past the end of the pool. */
  function At(pool: seq<RoleName>, idx: nat): Option<RoleName>
  {
    if idx < |pool| then Some(pool[idx]) else None
  }

  /** The result record: id number `idx` is given `pool[idx]`; a repeated id keeps its last entry. */
  function RoleMap(ids: seq<Id>, pool: seq<RoleName>): map<Id, Option<RoleName>>
  {
    if ids == [] then map[]
    else RoleMap(ids[..|ids| - 1], pool)[ids[|ids| - 1] := At(pool, |ids| - 1)]
  }

  /** Every id gets an entry; with distinct ids, id number `k` gets `pool[k]`. */
  lemma {:induction false} RoleMapSpec(ids: seq<Id>, pool: seq<RoleName>)
    ensures RoleMap(ids, pool).Keys == (set k | k in ids)
    ensures Distinct(ids) ==> forall k :: 0 <= k < |ids| ==> RoleMap(ids, pool)[ids[k]] == At(pool, k)
  {
    if ids != [] {
      var init := ids[..|ids| - 1];
      RoleMapSpec(init, pool);
      assert (set k | k in ids) == (set k | k in init) + {ids[|ids| - 1]} by {
        assert ids == init + [ids[|ids| - 1]];
      }
      if Distinct(ids) {
        assert Distinct(init) by {
          forall i, j | 0 <= i < j < |init| ensures init[i] != init[j] {
            assert init[i] == ids[i] && init[j] == ids[j];
          }
        }
        forall k | 0 <= k < |ids| - 1 ensures RoleMap(ids, pool)[ids[k]] == At(pool, k) {
          assert init[k] == ids[k];
        }
      }
    }
  }

  /**
    assignRoles: build the pool, shuffle it in place, and hand out `pool[idx]` to id number
    `idx`. The shuffled pool is returned as a ghost so that callers can name it.
   */
  method AssignRoles(ids: seq<Id>, config: seq<ConfigEntry>)
    returns (result: map<Id, Option<RoleName>>, ghost pool: seq<RoleName>)
    ensures multiset(pool) == multiset(PoolOf(config))
    ensures result == RoleMap(ids, pool)
  {
    var built := BuildPool(config);
    var a := new RoleName[|built|](k requires 0 <= k < |built| => built[k]);
    assert a[..] == built;
    ShufflePool(a);
    pool := a[..];
    result := DealPool(ids, a);
  }

  /** Pair id number k with pool entry k, or with no role once the pool runs out. */
  method DealPool(ids: seq<Id>, a: array<RoleName>) returns (result: map<Id, Option<RoleName>>)
    ensures result == RoleMap(ids, a[..])
  {
    result := map[];
    var idx := 0;
    while idx < |ids|
      invariant 0 <= idx <= |ids|
      invariant result == RoleMap(ids[..idx], a[..])
    {
      var role := if idx < a.Length then Some(a[idx]) else None;
      assert role == At(a[..], idx);
      assert ids[..idx + 1][..idx] == ids[..idx];
      result := result[ids[idx] := role];
      idx := idx + 1;
    }
    assert ids[..idx] == ids;
  }

  /**
    With distinct ids, non-negative counts summing to the number of ids, and the pool a
    permutation of the configured one, every id gets a role and each role is handed out
    exactly as often as the configuration asks.
   */
  lemma AssignmentMatchesConfig(ids: seq<Id>, config: seq<ConfigEntry>, pool: seq<RoleName>)
    requires Distinct(ids)
    requires forall i :: 0 <= i < |config| ==> config[i].count >= 0
    requires ConfigTotal(config) == |ids|
    requires multiset(pool) == multiset(PoolOf(config))
    ensures |pool| == |ids|
    ensures forall k :: 0 <= k < |ids| ==> ids[k] in RoleMap(ids, pool) && RoleMap(ids, pool)[ids[k]] == Some(pool[k])
    ensures forall r :: multiset(pool)[r] == RoleCount(config, r)
  {
    PoolCoversTotal(config);
    assert |pool| == |multiset(pool)| == |PoolOf(config)|;
    RoleMapSpec(ids, pool);
    forall r ensures multiset(pool)[r] == RoleCount(config, r) {
      PoolMultiplicity(config, r);
    }
  }

  // ---------------------------------------------------------------------------
  // Room codes

  /** The room-code alphabet: upper-case letters and digits without I, O, 0 and 1. */
  const CodeAlphabet: string := "ABCDEFGHJKLMNPQRSTUVWXYZ23456789"

  const CodeLength: nat := 6

  predicate IsRoomCode(code: string)
  {
    |code| == CodeLength && forall k :: 0 <= k < |code| ==> code[k] in CodeAlphabet
  }

  /** A symbol a room code may contain: an upper-case letter other than I and O, or a digit 2..9. */
  predicate CodeSymbol(c: char)
  {
    ('A' <= c <= 'Z' && c != 'I' && c != 'O') || ('2' <= c <= '9')
  }

  /** The alphabet has 32 symbols, all of them upper-case letters or digits, none of them I, O, 0 or 1. */
  lemma CodeAlphabetShape()
    ensures |CodeAlphabet| == 32
    ensures forall k :: 0 <= k < |CodeAlphabet| ==> CodeSymbol(CodeAlphabet[k])
  {
    var letters := "ABCDEFGHJKLMNPQRSTUVWXYZ";
    var digits := "23456789";
    assert CodeAlphabet == letters + digits;
    assert forall k :: 0 <= k < |letters| ==> CodeSymbol(letters[k]);
    assert forall k :: 0 <= k < |digits| ==> CodeSymbol(digits[k]);
  }

  /** generateRoomCode: six symbols, each an arbitrary pick from the alphabet. */
  method GenerateRoomCode() returns (code: string)
    ensures IsRoomCode(code)
  {
    code := "";
    var n := 0;
    while n < CodeLength
      invariant 0 <= n <= CodeLength && |code| == n
      invariant forall k :: 0 <= k < n ==> code[k] in CodeAlphabet
    {
      var k :| 0 <= k < |CodeAlphabet|;
      code := code + [CodeAlphabet[k]];
      n := n + 1;
    }
  }
}
