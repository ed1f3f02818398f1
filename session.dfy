/**
 * The older script keeps its question in the browser session instead of a
 * shared board, and bans no move: `generate_new_question` is the shared
 * engine with an empty banned set, writing the session's `current_q` and
 * hiding the answer again.
 */
module Session {
  import opened Wrappers
  import opened Usage
  import opened Reference
  import opened Questions

  /** The part of `st.session_state` the quiz uses. */
  class QuizSession {
    var currentQ: Option<MoveQuestion>
    var showAnswer: bool

    /** A new browser session: no question yet, answer hidden. */
    constructor()
      ensures currentQ == None && !showAnswer
    {
      currentQ := None;
      showAnswer := false;
    }
  }

  /** Without a banned list the clues are sampled from the entry's whole usage pool. */
  lemma OlderCluesFromWholePool(vgcDb: UsageDb, target: string, rng: Rng)
    requires target in vgcDb
    ensures CluesFor(vgcDb, target, {}, rng) == SelectClues(vgcDb[target].moves, rng.clues)
  {
    CluePoolWithoutBans(vgcDb[target].moves);
  }

  /**
   * `generate_new_question`: with no usage data, or when every attempt's
   * species lookup fails, the session is left as it was; otherwise the
   * question for the first answered attempt replaces `current_q` and the
   * answer is hidden.
   */
  method GenerateNewQuestion(session: QuizSession, vgcDb: UsageDb, fullDb: Corpus,
                             attempts: seq<MoveAttempt>, moveApi: string -> Option<LocalNames>, rng: Rng)
    requires forall k :: 0 <= k < |attempts| ==> attempts[k].target in vgcDb
    modifies session
    decreases |attempts|
    ensures vgcDb == map[] || FirstAnswered(attempts).None? ==> unchanged(session)
    ensures vgcDb != map[] && FirstAnswered(attempts).Some? ==>
      && session.currentQ.Some?
      && AnswersAttempt(session.currentQ.value, attempts[FirstAnswered(attempts).value])
      && ValidMoveQuestion(session.currentQ.value, vgcDb, fullDb, {})
      && !session.showAnswer
      && BuiltFrom(session.currentQ.value, vgcDb, fullDb, {}, attempts[FirstAnswered(attempts).value].target, moveApi, rng)
  {
    if vgcDb == map[] || attempts == [] {
      return;
    }
    var targetPmName := attempts[0].target;
    if attempts[0].species.None? {
      FirstAnsweredSkip(attempts);
      GenerateNewQuestion(session, vgcDb, fullDb, attempts[1..], moveApi, rng);
      return;
    }
    var q := BuildMoveQuestion(vgcDb, fullDb, {}, targetPmName, attempts[0].species.value, moveApi, rng);
    session.currentQ := Some(q);
    session.showAnswer := false;
  }
}
