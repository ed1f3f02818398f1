/**
 * The reference move cache (`all_moves_cache_3.json` / `_4.json`): lookup
 * of a Pokémon by exact or hyphen-prefixed key, decoy sampling
 * (`get_random_moves_from_cache`) and the ambiguity scan
 * (`find_other_matches`).
 */
module Reference {
  import opened Wrappers
  import opened Names
  import opened Sampling

  /** One cache value: `{"moves": [...], "names": {...}?, "stats": {...}?}`. */
  datatype Entry = Entry(moves: seq<string>, names: map<string, string>, stats: map<string, int>)

  /** The cache as a Python dict: its (key, value) pairs in iteration order. */
  type Corpus = seq<(string, Entry)>

  /** A dictionary lookup that yields `default` for a missing key. */
  function Get<V>(m: map<string, V>, k: string, default: V): V
  {
    if k in m then m[k] else default
  }

  /** The elements of a list, as a set. */
  function Elems(xs: seq<string>): set<string>
  {
    set x | x in xs
  }

  // ---------------------------------------------------------------------
  // Lookup: exact key first, then the first key starting with `key + "-"`
  // ---------------------------------------------------------------------

  /** `key in full_db`, answered with the position of that key. */
  function ExactIndex(c: Corpus, key: string): (r: Option<nat>)
    ensures r.None? <==> forall i :: 0 <= i < |c| ==> c[i].0 != key
    ensures r.Some? ==> r.value < |c| && c[r.value].0 == key
    ensures r.Some? ==> forall i :: 0 <= i < r.value ==> c[i].0 != key
  {
    if c == [] then None
    else if c[0].0 == key then Some(0)
    else match ExactIndex(c[1..], key)
      case None => None
      case Some(i) => Some(i + 1)
  }

  /** The position of the first key, in iteration order, that starts with `prefix`. */
  function FirstWithPrefix(c: Corpus, prefix: string): (r: Option<nat>)
    ensures r.None? <==> forall i :: 0 <= i < |c| ==> !StartsWith(c[i].0, prefix)
    ensures r.Some? ==> r.value < |c| && StartsWith(c[r.value].0, prefix)
    ensures r.Some? ==> forall i :: 0 <= i < r.value ==> !StartsWith(c[i].0, prefix)
  {
    if c == [] then None
    else if StartsWith(c[0].0, prefix) then Some(0)
    else match FirstWithPrefix(c[1..], prefix)
      case None => None
      case Some(i) => Some(i + 1)
  }

  /** The loop over the cache keys that stops at the first key starting with the prefix. */
  method FindPrefixKey(c: Corpus, prefix: string) returns (found: Option<nat>)
    ensures found == FirstWithPrefix(c, prefix)
  {
    found := None;
    var i := 0;
    while i < |c|
      invariant 0 <= i <= |c|
      invariant forall k :: 0 <= k < i ==> !StartsWith(c[k].0, prefix)
    {
      if StartsWith(c[i].0, prefix) {
        found := Some(i);
        break;
      }
      i := i + 1;
    }
  }

  /** Which cache entry a Pokémon name resolves to. */
  function ResolveIndex(c: Corpus, name: string): (r: Option<nat>)
    ensures r.Some? ==> r.value < |c|
    // an exact key always wins
    ensures (exists i :: 0 <= i < |c| && c[i].0 == Normalize(name)) ==> r.Some? && c[r.value].0 == Normalize(name)
    // otherwise the first key extending the name with a hyphen is used
    ensures r.Some? && c[r.value].0 != Normalize(name) ==>
      && (forall i :: 0 <= i < |c| ==> c[i].0 != Normalize(name))
      && StartsWith(c[r.value].0, Normalize(name) + "-")
      && (forall i :: 0 <= i < r.value ==> !StartsWith(c[i].0, Normalize(name) + "-"))
    // and when neither exists the name does not resolve
    ensures r.None? <==> forall i :: 0 <= i < |c| ==> c[i].0 != Normalize(name) && !StartsWith(c[i].0, Normalize(name) + "-")
  {
    var key := Normalize(name);
    match ExactIndex(c, key)
    case Some(i) => Some(i)
    case None => FirstWithPrefix(c, key + "-")
  }

  /**
   * The hyphen guard: a name resolves only to its own key or to a key that
   * continues it with '-', so "mew" can never resolve to "mewtwo".
   */
  lemma ResolvedKeyExtendsName(c: Corpus, name: string)
    requires ResolveIndex(c, name).Some?
    ensures var key := c[ResolveIndex(c, name).value].0;
      key == Normalize(name) || (|key| > |Normalize(name)| && key[..|Normalize(name)|] == Normalize(name) && key[|Normalize(name)|] == '-')
  {
    var n := Normalize(name);
    var key := c[ResolveIndex(c, name).value].0;
    if key != n {
      assert key[..|n + "-"|] == n + "-";
      assert key[..|n|] == (n + "-")[..|n|];
      assert key[|n|] == (n + "-")[|n|];
    }
  }

  /** With both "mew" and "mewtwo" present, "Mewtwo" resolves to its own exact entry. */
  lemma MewtwoResolvesExactly(mew: Entry, mewtwo: Entry)
    ensures ResolveIndex([("mew", mew), ("mewtwo", mewtwo)], "Mewtwo") == Some(1)
  {
    var c := [("mew", mew), ("mewtwo", mewtwo)];
    assert Normalize("Mewtwo") == "mewtwo";
    assert c[1].0 == "mewtwo";
  }

  /** The hyphen guard at work: with only "mewtwo" cached, "Mew" does not resolve at all. */
  lemma MewNeverResolvesToMewtwo(mewtwo: Entry)
    ensures ResolveIndex([("mewtwo", mewtwo)], "Mew") == None
  {
    assert Normalize("Mew") == "mew";
    assert !StartsWith("mewtwo", "mew-") by {
      assert "mewtwo"[3] != "mew-"[3];
    }
  }

  /** "Landorus" has no exact key and resolves to its form "landorus-incarnate". */
  lemma LandorusResolvesToForm(e: Entry)
    ensures ResolveIndex([("landorus-incarnate", e)], "Landorus") == Some(0)
  {
    var c := [("landorus-incarnate", e)];
    assert Normalize("Landorus") == "landorus";
    assert c[0].0 != "landorus";
    assert StartsWith(c[0].0, "landorus" + "-");
  }

  /** The moves of the entry a name resolves to, `[]` when it does not resolve. */
  function ResolvedMoves(c: Corpus, name: string): seq<string>
  {
    match ResolveIndex(c, name)
    case None => []
    case Some(i) => c[i].1.moves
  }

  // ---------------------------------------------------------------------
  // Decoys
  // ---------------------------------------------------------------------

  /** A move survives the filter: its key is neither excluded nor banned. */
  predicate Allowed(m: string, excludedKeys: set<string>, banned: set<string>)
  {
    Normalize(m) !in excludedKeys && Normalize(m) !in banned
  }

  /** `candidate_moves`: the moves, in order, whose key is neither excluded nor banned. */
  function Candidates(ms: seq<string>, excludedKeys: set<string>, banned: set<string>): (r: seq<string>)
    ensures forall m :: m in r <==> m in ms && Allowed(m, excludedKeys, banned)
  {
    if ms == [] then []
    else
      var init := ms[..|ms| - 1];
      var m := ms[|ms| - 1];
      assert ms == init + [m];
      Candidates(init, excludedKeys, banned) + (if Allowed(m, excludedKeys, banned) then [m] else [])
  }

  /** Filtering keeps each move at most as often as the entry lists it. */
  lemma {:induction false} CandidatesSubMultiset(ms: seq<string>, excludedKeys: set<string>, banned: set<string>)
    ensures multiset(Candidates(ms, excludedKeys, banned)) <= multiset(ms)
  {
    if ms != [] {
      var init := ms[..|ms| - 1];
      CandidatesSubMultiset(init, excludedKeys, banned);
      assert ms == init + [ms[|ms| - 1]];
    }
  }

  /**
   * What `get_random_moves_from_cache` returns: `min(count, |candidates|)`
   * candidates drawn from distinct positions, or `[]` when the name does
   * not resolve.
   */
  function RandomMoves(c: Corpus, name: string, excluded: seq<string>, count: nat, banned: set<string>, rand: nat -> nat): (r: seq<string>)
    ensures ResolveIndex(c, name).None? ==> r == []
    ensures ResolveIndex(c, name).Some? ==>
      var cands := Candidates(ResolvedMoves(c, name), NormSet(excluded), banned);
      |r| == Min(count, |cands|) && multiset(r) <= multiset(cands)
    ensures forall m :: m in r ==> m in ResolvedMoves(c, name)
    ensures forall m :: m in r ==> Normalize(m) !in NormSet(excluded) && Normalize(m) !in banned
    ensures count == 0 ==> r == []
  {
    match ResolveIndex(c, name)
    case None => []
    case Some(i) =>
      var cands := Candidates(c[i].1.moves, NormSet(excluded), banned);
      var n := Min(count, |cands|);
      if n == 0 then []
      else
        var r := Sample(cands, n, rand);
        assert forall m :: m in r ==> m in cands by {
          forall m | m in r ensures m in cands {
            assert m in multiset(r);
          }
        }
        r
  }

  /** `RandomMoves` once the name is known to resolve to entry `i`. */
  lemma RandomMovesAt(c: Corpus, name: string, excluded: seq<string>, count: nat, banned: set<string>, rand: nat -> nat, i: nat)
    requires ResolveIndex(c, name) == Some(i)
    ensures i < |c|
    ensures RandomMoves(c, name, excluded, count, banned, rand) ==
      var cands := Candidates(c[i].1.moves, NormSet(excluded), banned);
      if Min(count, |cands|) == 0 then [] else Sample(cands, Min(count, |cands|), rand)
  {
  }

  /** One more move of the entry is one more filter step. */
  lemma CandidatesStep(ms: seq<string>, k: nat, excludedKeys: set<string>, banned: set<string>)
    requires k < |ms|
    ensures Candidates(ms[..k + 1], excludedKeys, banned) ==
      Candidates(ms[..k], excludedKeys, banned) + (if Allowed(ms[k], excludedKeys, banned) then [ms[k]] else [])
  {
    assert ms[..k + 1][..k] == ms[..k];
  }

  /** The `candidate_moves` loop. */
  method FilterCandidates(allMoves: seq<string>, excludedSet: set<string>, banned: set<string>)
    returns (candidateMoves: seq<string>)
    ensures candidateMoves == Candidates(allMoves, excludedSet, banned)
  {
    candidateMoves := [];
    var k := 0;
    while k < |allMoves|
      invariant 0 <= k <= |allMoves|
      invariant candidateMoves == Candidates(allMoves[..k], excludedSet, banned)
    {
      CandidatesStep(allMoves, k, excludedSet, banned);
      if Allowed(allMoves[k], excludedSet, banned) {
        candidateMoves := candidateMoves + [allMoves[k]];
      }
      k := k + 1;
    }
    assert allMoves[..k] == allMoves;
  }

  /** Decoy selection: resolve the Pokémon in the cache, filter its moves, sample up to `count` of them. */
  method GetRandomMovesFromCache(fullDb: Corpus, pokemonName: string, excludedMoves: seq<string>,
                                 count: nat, banned: set<string>, rand: nat -> nat)
    returns (r: seq<string>)
    ensures r == RandomMoves(fullDb, pokemonName, excludedMoves, count, banned, rand)
  {
    var targetKey := Normalize(pokemonName);
    var pmIndex := ExactIndex(fullDb, targetKey);
    if pmIndex.None? {
      pmIndex := FindPrefixKey(fullDb, targetKey + "-");
      if pmIndex.None? {
        assert ResolveIndex(fullDb, pokemonName).None?;
        return [];
      }
    }
    assert pmIndex == ResolveIndex(fullDb, pokemonName);
    RandomMovesAt(fullDb, pokemonName, excludedMoves, count, banned, rand, pmIndex.value);
    var allMoves := fullDb[pmIndex.value].1.moves;
    var candidateMoves := FilterCandidates(allMoves, NormSet(excludedMoves), banned);
    var actualCount := Min(count, |candidateMoves|);
    if actualCount == 0 {
      return [];
    }
    r := Sample(candidateMoves, actualCount, rand);
  }

  // ---------------------------------------------------------------------
  // The ambiguity scan
  // ---------------------------------------------------------------------

  /** One match as shown: Chinese, Japanese and English names, with the fallbacks of the code. */
  datatype Display = Display(zh: string, ja: string, en: string)

  /** A reported entry: each name from the entry, else the key (Chinese, English) or 'N/A' (Japanese). */
  function Describe(key: string, e: Entry): (d: Display)
    ensures "zh" in e.names ==> d.zh == e.names["zh"]
    ensures "ja" in e.names ==> d.ja == e.names["ja"]
    ensures "en" in e.names ==> d.en == e.names["en"]
    ensures "zh" !in e.names ==> d.zh == key
    ensures "ja" !in e.names ==> d.ja == "N/A"
    ensures "en" !in e.names ==> d.en == key
  {
    Display(Get(e.names, "zh", key), Get(e.names, "ja", "N/A"), Get(e.names, "en", key))
  }

  /**
   * Entry `(key, e)` is reported: its key is not case-insensitively the
   * answer's name, and its (un-normalised) move set holds every clue key.
   */
  predicate IsOtherMatch(key: string, e: Entry, clueKeys: set<string>, answer: string)
  {
    Lower(key) != Lower(answer) && clueKeys <= Elems(e.moves)
  }

  /** The loop of `find_other_matches`, over the cache in iteration order. */
  function ScanMatches(c: Corpus, clueKeys: set<string>, answer: string): (r: seq<Display>)
    ensures |r| <= |c|
    ensures forall i :: 0 <= i < |c| && IsOtherMatch(c[i].0, c[i].1, clueKeys, answer) ==> Describe(c[i].0, c[i].1) in r
    ensures forall d :: d in r ==> exists i :: 0 <= i < |c| && IsOtherMatch(c[i].0, c[i].1, clueKeys, answer) && d == Describe(c[i].0, c[i].1)
  {
    if c == [] then []
    else
      var rest := ScanMatches(c[1..], clueKeys, answer);
      assert forall i :: 1 <= i < |c| ==> c[i] == c[1..][i - 1];
      if IsOtherMatch(c[0].0, c[0].1, clueKeys, answer) then [Describe(c[0].0, c[0].1)] + rest else rest
  }

  /** The ambiguity scan: the cache entries, other than the answer, whose moves include every shown move's key. */
  function FindOtherMatches(fullDb: Corpus, quizMoves: seq<string>, answer: string): (r: seq<Display>)
    ensures fullDb == [] ==> r == []
    ensures forall i :: 0 <= i < |fullDb| && IsOtherMatch(fullDb[i].0, fullDb[i].1, NormSet(quizMoves), answer) ==>
      Describe(fullDb[i].0, fullDb[i].1) in r
    ensures forall d :: d in r ==>
      exists i :: (0 <= i < |fullDb| && IsOtherMatch(fullDb[i].0, fullDb[i].1, NormSet(quizMoves), answer) &&
                   d == Describe(fullDb[i].0, fullDb[i].1))
  {
    if fullDb == [] then [] else ScanMatches(fullDb, NormSet(quizMoves), answer)
  }

  /** Matches come out in cache order: scanning two halves is scanning each in turn. */
  lemma {:induction false} ScanMatchesAppend(c1: Corpus, c2: Corpus, clueKeys: set<string>, answer: string)
    ensures ScanMatches(c1 + c2, clueKeys, answer) == ScanMatches(c1, clueKeys, answer) + ScanMatches(c2, clueKeys, answer)
  {
    if c1 == [] {
      assert c1 + c2 == c2;
    } else {
      assert (c1 + c2)[0] == c1[0];
      assert (c1 + c2)[1..] == c1[1..] + c2;
      ScanMatchesAppend(c1[1..], c2, clueKeys, answer);
    }
  }

  /** More clue keys can only remove matches, never add one or reorder them. */
  lemma {:induction false} ScanMatchesMonotone(c: Corpus, fewer: set<string>, more: set<string>, answer: string)
    requires fewer <= more
    ensures Subsequence(ScanMatches(c, more, answer), ScanMatches(c, fewer, answer))
  {
    if c != [] {
      ScanMatchesMonotone(c[1..], fewer, more, answer);
      var big := ScanMatches(c, fewer, answer);
      var small := ScanMatches(c, more, answer);
      if IsOtherMatch(c[0].0, c[0].1, more, answer) {
        assert IsOtherMatch(c[0].0, c[0].1, fewer, answer);
        assert big[1..] == ScanMatches(c[1..], fewer, answer);
        assert small[1..] == ScanMatches(c[1..], more, answer);
      } else if IsOtherMatch(c[0].0, c[0].1, fewer, answer) {
        assert big[1..] == ScanMatches(c[1..], fewer, answer);
        assert small == ScanMatches(c[1..], more, answer);
      }
    }
  }

  /** Adding a clue to the quiz can never add a match. */
  lemma AddingClueNeverAddsMatch(fullDb: Corpus, quizMoves: seq<string>, clue: string, answer: string)
    ensures Subsequence(FindOtherMatches(fullDb, quizMoves + [clue], answer), FindOtherMatches(fullDb, quizMoves, answer))
    ensures |FindOtherMatches(fullDb, quizMoves + [clue], answer)| <= |FindOtherMatches(fullDb, quizMoves, answer)|
  {
    assert NormSet(quizMoves) <= NormSet(quizMoves + [clue]);
    ScanMatchesMonotone(fullDb, NormSet(quizMoves), NormSet(quizMoves + [clue]), answer);
    SubsequenceLength(FindOtherMatches(fullDb, quizMoves + [clue], answer), FindOtherMatches(fullDb, quizMoves, answer));
  }

  // ---------------------------------------------------------------------
  // Finding: the answer is excluded by raw name, not by the key it resolves to
  // ---------------------------------------------------------------------

  /**
   * As written: for the answer "Flutter Mane", whose cache key is
   * "flutter-mane", the answer's own entry is reported as another Pokémon
   * knowing the clue, so a clue set only the answer knows is never shown as
   * unique.
   */
  lemma FlutterManeReportedAgainstItself(names: map<string, string>, stats: map<string, int>)
    ensures var c := [("flutter-mane", Entry(["moonblast"], names, stats))];
      && ResolveIndex(c, "Flutter Mane") == Some(0)
      && FindOtherMatches(c, ["Moonblast"], "Flutter Mane") == [Describe("flutter-mane", c[0].1)]
  {
    var e := Entry(["moonblast"], names, stats);
    var c := [("flutter-mane", e)];
    FlutterManeResolves(e);
    var clueKeys := NormSet(["Moonblast"]);
    assert clueKeys == {"moonblast"} by {
      assert Normalize("Moonblast") == "moonblast";
    }
    assert Lower("flutter-mane") != Lower("Flutter Mane") by {
      assert Lower("Flutter Mane")[7] == ' ';
    }
    assert "moonblast" in e.moves;
    assert IsOtherMatch(c[0].0, e, clueKeys, "Flutter Mane");
    assert ScanMatches(c[1..], clueKeys, "Flutter Mane") == [];
  }

  /** The answer's name normalises to the cache key. */
  lemma FlutterManeKey()
    ensures Normalize("Flutter Mane") == "flutter-mane"
  {
  }

  /** "Flutter Mane" normalises to the cache key "flutter-mane" and resolves to it. */
  lemma FlutterManeResolves(e: Entry)
    ensures ResolveIndex([("flutter-mane", e)], "Flutter Mane") == Some(0)
  {
    FlutterManeKey();
    var c := [("flutter-mane", e)];
    assert c[0].0 == Normalize("Flutter Mane");
  }

  /** The key of the entry the answer resolves to, if any. */
  function AnswerKey(c: Corpus, answer: string): Option<string>
  {
    match ResolveIndex(c, answer)
    case None => None
    case Some(i) => Some(c[i].0)
  }

  /** Corrected scan: every entry except the one the answer's name resolves to. */
  function ScanMatchesExcept(c: Corpus, clueKeys: set<string>, answerKey: Option<string>): (r: seq<Display>)
    ensures |r| <= |c|
    ensures forall d :: d in r ==>
      exists i :: (0 <= i < |c| && Some(c[i].0) != answerKey && clueKeys <= Elems(c[i].1.moves) &&
                   d == Describe(c[i].0, c[i].1))
    ensures forall i :: 0 <= i < |c| && Some(c[i].0) != answerKey && clueKeys <= Elems(c[i].1.moves) ==>
      Describe(c[i].0, c[i].1) in r
  {
    if c == [] then []
    else
      var rest := ScanMatchesExcept(c[1..], clueKeys, answerKey);
      assert forall i :: 1 <= i < |c| ==> c[i] == c[1..][i - 1];
      if Some(c[0].0) != answerKey && clueKeys <= Elems(c[0].1.moves) then [Describe(c[0].0, c[0].1)] + rest else rest
  }

  /** Corrected `find_other_matches`: the answer is excluded by the cache key it resolves to. */
  function FindOtherMatchesCorrected(fullDb: Corpus, quizMoves: seq<string>, answer: string): (r: seq<Display>)
    ensures fullDb == [] ==> r == []
    // the answer's own entry is never among the reported ones
    ensures forall d :: d in r ==>
      exists i :: (0 <= i < |fullDb| && Some(fullDb[i].0) != AnswerKey(fullDb, answer) &&
                   NormSet(quizMoves) <= Elems(fullDb[i].1.moves) && d == Describe(fullDb[i].0, fullDb[i].1))
    // every other entry knowing all the clues is reported
    ensures forall i :: (0 <= i < |fullDb| && Some(fullDb[i].0) != AnswerKey(fullDb, answer) &&
                         NormSet(quizMoves) <= Elems(fullDb[i].1.moves)) ==>
      Describe(fullDb[i].0, fullDb[i].1) in r
  {
    if fullDb == [] then [] else ScanMatchesExcept(fullDb, NormSet(quizMoves), AnswerKey(fullDb, answer))
  }

  lemma {:induction false} ScanMatchesExceptNone(c: Corpus, clueKeys: set<string>, answerKey: Option<string>)
    requires forall i :: 0 <= i < |c| && Some(c[i].0) != answerKey ==> !(clueKeys <= Elems(c[i].1.moves))
    ensures ScanMatchesExcept(c, clueKeys, answerKey) == []
  {
    if c != [] {
      assert forall i :: 1 <= i < |c| ==> c[i] == c[1..][i - 1];
      ScanMatchesExceptNone(c[1..], clueKeys, answerKey);
    }
  }

  /**
   * Intended verdict, corrected: when the answer resolves and no OTHER entry
   * knows every clue, no match is reported ("unique solution").
   */
  lemma UniqueWhenOnlyAnswerKnowsClues(fullDb: Corpus, quizMoves: seq<string>, answer: string)
    requires ResolveIndex(fullDb, answer).Some?
    requires forall i :: 0 <= i < |fullDb| && fullDb[i].0 != fullDb[ResolveIndex(fullDb, answer).value].0 ==>
      !(NormSet(quizMoves) <= Elems(fullDb[i].1.moves))
    ensures FindOtherMatchesCorrected(fullDb, quizMoves, answer) == []
  {
    var own := fullDb[ResolveIndex(fullDb, answer).value].0;
    assert AnswerKey(fullDb, answer) == Some(own);
    ScanMatchesExceptNone(fullDb, NormSet(quizMoves), Some(own));
  }

  /** On the "Flutter Mane" cache above, the corrected scan reports nothing. */
  lemma FlutterManeUniqueWhenCorrected(names: map<string, string>, stats: map<string, int>)
    ensures FindOtherMatchesCorrected([("flutter-mane", Entry(["moonblast"], names, stats))], ["Moonblast"], "Flutter Mane") == []
  {
    var e := Entry(["moonblast"], names, stats);
    var c := [("flutter-mane", e)];
    FlutterManeResolves(e);
    UniqueWhenOnlyAnswerKnowsClues(c, ["Moonblast"], "Flutter Mane");
  }
}
