/**
 * The newer script's shared board: one `GameServer` object that every
 * browser session reads and writes, and the two question generators that
 * publish to it. The host/player role (`is_admin`) is accepted but never
 * consulted, so every successful generation overwrites the board.
 *
 * `random.choice` and the network lookups are parameters: each attempt
 * records the drawn target together with what the lookup answered, and the
 * unbounded retry is bounded by the number of attempts supplied.
 */
module Board {
  import opened Wrappers
  import opened Names
  import opened Usage
  import opened Reference
  import opened Questions

  /** The board every session shares. */
  class GameServer {
    var currentQMove: Option<MoveQuestion>
    var currentQStat: Option<StatQuestion>
    var lastUpdateTime: int

    /** A fresh board: no questions posted yet, stamped with the current time. */
    constructor(now: int)
      ensures currentQMove == None && currentQStat == None && lastUpdateTime == now
    {
      currentQMove := None;
      currentQStat := None;
      lastUpdateTime := now;
    }

    /** Posting a move question: the move slot and the time are overwritten, the stat slot is kept. */
    method PostMove(q: MoveQuestion, now: int)
      modifies this
      ensures currentQMove == Some(q) && lastUpdateTime == now && currentQStat == old(currentQStat)
    {
      currentQMove := Some(q);
      lastUpdateTime := now;
    }

    /** Posting a stat question: the stat slot and the time are overwritten, the move slot is kept. */
    method PostStat(q: StatQuestion, now: int)
      modifies this
      ensures currentQStat == Some(q) && lastUpdateTime == now && currentQMove == old(currentQMove)
    {
      currentQStat := Some(q);
      lastUpdateTime := now;
    }
  }

  // ---------------------------------------------------------------------
  // Move question
  // ---------------------------------------------------------------------

  /**
   * `generate_move_question`: with no usage data nothing happens; otherwise
   * attempts are consumed until the species lookup answers, and the question
   * built for that target is posted on the board, whatever the caller's role.
   */
  method GenerateMoveQuestion(server: GameServer, vgcDb: UsageDb, moveCache: Corpus, isAdmin: bool,
                              attempts: seq<MoveAttempt>, moveApi: string -> Option<LocalNames>, rng: Rng, now: int)
    returns (r: Option<MoveQuestion>)
    requires forall k :: 0 <= k < |attempts| ==> attempts[k].target in vgcDb
    modifies server
    decreases |attempts|
    ensures r.Some? <==> vgcDb != map[] && FirstAnswered(attempts).Some?
    ensures r.None? ==> unchanged(server)
    ensures r.Some? ==>
      && AnswersAttempt(r.value, attempts[FirstAnswered(attempts).value])
      && ValidMoveQuestion(r.value, vgcDb, moveCache, BANNED_MOVES)
    ensures r.Some? ==>
      BuiltFrom(r.value, vgcDb, moveCache, BANNED_MOVES, attempts[FirstAnswered(attempts).value].target, moveApi, rng)
    ensures r.Some? ==>
      && server.currentQMove == r
      && server.lastUpdateTime == now
      && server.currentQStat == old(server.currentQStat)
  {
    if vgcDb == map[] || attempts == [] {
      return None;
    }
    var targetPmName := attempts[0].target;
    if attempts[0].species.None? {
      FirstAnsweredSkip(attempts);
      r := GenerateMoveQuestion(server, vgcDb, moveCache, isAdmin, attempts[1..], moveApi, rng, now);
      return;
    }
    var newQ := BuildMoveQuestion(vgcDb, moveCache, BANNED_MOVES, targetPmName, attempts[0].species.value, moveApi, rng);
    server.PostMove(newQ, now);
    r := Some(newQ);
  }

  // ---------------------------------------------------------------------
  // Stat question
  // ---------------------------------------------------------------------

  /** The stat question dict: base stats, the answer's names and id, and the usage entry's source and rank. */
  datatype StatQuestion = StatQuestion(
    stats: map<string, int>,
    answerName: string, answerJp: string, answerEn: string, answerId: int,
    source: string, rank: nat)

  /** One round of `generate_stat_question`: the drawn target and what the id lookup answered. */
  datatype StatAttempt = StatAttempt(target: string, pokemonId: Option<int>)

  /** An attempt succeeds when the stat cache knows the target and the id lookup gave a non-zero id (`if not pm_id`). */
  predicate StatUsable(statCache: Corpus, a: StatAttempt)
  {
    ResolveIndex(statCache, a.target).Some? && a.pokemonId.Some? && a.pokemonId.value != 0
  }

  /** The first attempt that succeeds, if any. */
  function FirstStatUsable(statCache: Corpus, attempts: seq<StatAttempt>): (r: Option<nat>)
    ensures r.Some? ==> r.value < |attempts| && StatUsable(statCache, attempts[r.value])
    ensures r.Some? ==> forall k :: 0 <= k < r.value ==> !StatUsable(statCache, attempts[k])
    ensures r.None? <==> forall k :: 0 <= k < |attempts| ==> !StatUsable(statCache, attempts[k])
  {
    FirstWhere(attempts, (a: StatAttempt) => StatUsable(statCache, a))
  }

  /** A failed first attempt: the first usable attempt is the first usable one of the rest, one place later. */
  lemma FirstStatUsableSkip(statCache: Corpus, attempts: seq<StatAttempt>)
    requires attempts != [] && !StatUsable(statCache, attempts[0])
    ensures FirstStatUsable(statCache, attempts).Some? <==> FirstStatUsable(statCache, attempts[1..]).Some?
    ensures FirstStatUsable(statCache, attempts).Some? ==>
      attempts[FirstStatUsable(statCache, attempts).value] == attempts[1..][FirstStatUsable(statCache, attempts[1..]).value]
  {
  }

  /**
   * `generate_stat_question`: the stat-cache entry is found exactly as the
   * decoy lookup finds a move-cache entry; a miss, or a missing or zero id,
   * draws again. The posted question takes the stats and names of that
   * entry (Chinese and English falling back to the drawn name, Japanese to
   * 'N/A') and the source and rank of the usage entry.
   */
  method GenerateStatQuestion(server: GameServer, vgcDb: UsageDb, statCache: Corpus, isAdmin: bool,
                              attempts: seq<StatAttempt>, now: int)
    returns (r: Option<StatQuestion>)
    requires forall k :: 0 <= k < |attempts| ==> attempts[k].target in vgcDb
    modifies server
    decreases |attempts|
    ensures r.Some? <==> vgcDb != map[] && FirstStatUsable(statCache, attempts).Some?
    ensures r.None? ==> unchanged(server)
    ensures r.Some? ==>
      var a := attempts[FirstStatUsable(statCache, attempts).value];
      var e := statCache[ResolveIndex(statCache, a.target).value].1;
      && r.value.stats == e.stats
      && r.value.answerName == Get(e.names, "zh", a.target)
      && r.value.answerJp == Get(e.names, "ja", "N/A")
      && r.value.answerEn == Get(e.names, "en", a.target)
      && r.value.answerId == a.pokemonId.value && r.value.answerId != 0
      && r.value.source == vgcDb[a.target].source
      && r.value.rank == vgcDb[a.target].rank
    ensures r.Some? ==>
      && server.currentQStat == r
      && server.lastUpdateTime == now
      && server.currentQMove == old(server.currentQMove)
  {
    if vgcDb == map[] || attempts == [] {
      return None;
    }
    var targetPmName := attempts[0].target;
    var pmDataVgc := vgcDb[targetPmName];
    var found := ResolveIndex(statCache, targetPmName);
    if found.None? {
      FirstStatUsableSkip(statCache, attempts);
      r := GenerateStatQuestion(server, vgcDb, statCache, isAdmin, attempts[1..], now);
      return;
    }
    var pmCacheData := statCache[found.value].1;
    var stats := pmCacheData.stats;
    var names := pmCacheData.names;
    var pmId := attempts[0].pokemonId;
    if pmId.None? || pmId.value == 0 {
      FirstStatUsableSkip(statCache, attempts);
      r := GenerateStatQuestion(server, vgcDb, statCache, isAdmin, attempts[1..], now);
      return;
    }
    var newQ := StatQuestion(stats, Get(names, "zh", targetPmName), Get(names, "ja", "N/A"),
                             Get(names, "en", targetPmName), pmId.value, pmDataVgc.source, pmDataVgc.rank);
    server.PostStat(newQ, now);
    r := Some(newQ);
  }
}
