/**
 * The move-question engine shared by both scripts (`generate_move_question`
 * in the newer one, `generate_new_question` in the older one): choose the
 * clue pool, sample the clues, fetch decoys, de-duplicate by normalised key
 * keeping the first occurrence, shuffle, and translate each move.
 *
 * The two scripts differ only in the set of banned moves: BANNED_MOVES in
 * the newer script, the empty set in the older one.
 */
module Questions {
  import opened Wrappers
  import opened Names
  import opened Sampling
  import opened Usage
  import opened Reference

  const CLUES_NUM: nat := 1
  const DISTRACTOR_NUM: nat := 3
  const BANNED_MOVES: set<string> :=
    {"protect", "tera-blast", "substitute", "rest", "sleep-talk", "endure", "facade", "helping-hand"}

  // ---------------------------------------------------------------------
  // Clues
  // ---------------------------------------------------------------------

  /** The usage moves whose normalised key is not banned, order kept. */
  function Unbanned(raw: seq<string>, banned: set<string>): (r: seq<string>)
    ensures forall m :: m in r <==> m in raw && Normalize(m) !in banned
  {
    if raw == [] then []
    else (if Normalize(raw[0]) !in banned then [raw[0]] else []) + Unbanned(raw[1..], banned)
  }

  /** With nothing banned, the filter keeps the whole pool, in order. */
  lemma {:induction false} UnbannedNothingBanned(raw: seq<string>)
    ensures Unbanned(raw, {}) == raw
  {
    if raw != [] {
      UnbannedNothingBanned(raw[1..]);
    }
  }

  /**
   * `valid_vgc_pool`: the usage pool without banned moves, or the whole pool
   * when every move in it is banned.
   */
  function CluePool(raw: seq<string>, banned: set<string>): (r: seq<string>)
    ensures forall m :: m in r ==> m in raw
    ensures (exists m :: m in raw && Normalize(m) !in banned) ==>
      forall m :: m in r <==> m in raw && Normalize(m) !in banned
    ensures (forall m :: m in raw ==> Normalize(m) in banned) ==> r == raw
    ensures r == [] <==> raw == []
  {
    var valid := Unbanned(raw, banned);
    if valid == [] then raw
    else
      assert valid[0] in valid;
      valid
  }

  /** The older script has no banned list and samples its clues from the whole pool. */
  lemma CluePoolWithoutBans(raw: seq<string>)
    ensures CluePool(raw, {}) == raw
  {
    UnbannedNothingBanned(raw);
  }

  /** The clues: the whole pool when it is shorter than CLUES_NUM, otherwise a sample of CLUES_NUM moves. */
  function SelectClues(pool: seq<string>, rand: nat -> nat): (r: seq<string>)
    ensures |r| == Min(CLUES_NUM, |pool|)
    ensures multiset(r) <= multiset(pool)
    ensures forall m :: m in r ==> m in pool
  {
    if |pool| < CLUES_NUM then pool
    else
      var r := Sample(pool, CLUES_NUM, rand);
      assert forall m :: m in r ==> m in pool by {
        forall m | m in r ensures m in pool {
          assert m in multiset(r);
        }
      }
      r
  }

  // ---------------------------------------------------------------------
  // First-occurrence de-duplication by normalised key
  // ---------------------------------------------------------------------

  /** `x` is the first name of `s` with its key. */
  predicate IsFirstOfKey(s: seq<string>, x: string)
  {
    exists j :: 0 <= j < |s| && s[j] == x && FirstOfKey(s, j)
  }

  /** Every name of `r` is the first name of `s` with its key. */
  predicate OnlyFirsts(r: seq<string>, s: seq<string>)
  {
    forall i :: 0 <= i < |r| ==> IsFirstOfKey(s, r[i])
  }

  /** The first name of `s` with each key is in `r`. */
  predicate AllFirsts(r: seq<string>, s: seq<string>)
  {
    forall j :: 0 <= j < |s| && FirstOfKey(s, j) ==> s[j] in r
  }

  /**
   * The keys of `r` come in the order they are first seen in `s`: wherever
   * `s` holds the key of a later `r[j]`, the key of an earlier `r[i]` has
   * already been seen.
   */
  predicate InFirstSeenOrder(r: seq<string>, s: seq<string>)
  {
    forall i, j, b :: 0 <= i < j < |r| && 0 <= b < |s| && Normalize(s[b]) == Normalize(r[j]) ==>
      Normalize(r[i]) in NormSet(s[..b])
  }

  /**
   * The moves of `s` whose normalised key does not occur earlier in `s`, in
   * order: the first occurrence of every key, and nothing else.
   */
  function Firsts(s: seq<string>): (r: seq<string>)
    ensures NormDistinct(r)
    ensures NormSet(r) == NormSet(s)
    ensures forall x :: x in r ==> x in s
    ensures |r| <= |s|
    ensures s != [] ==> r != [] && r[0] == s[0]
  {
    if s == [] then []
    else
      var init := s[..|s| - 1];
      var last := s[|s| - 1];
      var p := Firsts(init);
      assert s == init + [last];
      var isNew := Normalize(last) !in NormSet(init);
      var r := if isNew then p + [last] else p;
      FirstsStepKeys(init, last, p, r, isNew);
      r
  }

  /** `Firsts` keeps the order of its input: its result is a subsequence of it. */
  lemma {:induction false} FirstsSubsequence(s: seq<string>)
    ensures Subsequence(Firsts(s), s)
  {
    if s != [] {
      var init, last := s[..|s| - 1], s[|s| - 1];
      assert s == init + [last];
      FirstsSubsequence(init);
      FirstsSubsequenceSnoc(init, last);
    }
  }

  /** Induction step of `FirstsSubsequence`: one more name keeps subsequence. */
  lemma FirstsSubsequenceSnoc(p: seq<string>, x: string)
    requires Subsequence(Firsts(p), p)
    ensures Subsequence(Firsts(p + [x]), p + [x])
  {
    FirstsSnoc(p, x);
    FirstsStepOrder(p, x, Firsts(p), Firsts(p + [x]), Normalize(x) !in NormSet(p));
  }

  /** Every name `Firsts` keeps is the first one of its key. */
  lemma {:induction false} FirstsOnlyFirsts(s: seq<string>)
    ensures OnlyFirsts(Firsts(s), s)
  {
    if s != [] {
      var init, last := s[..|s| - 1], s[|s| - 1];
      assert s == init + [last];
      FirstsOnlyFirsts(init);
      FirstsOnlyFirstsSnoc(init, last);
    }
  }

  /** Induction step of `FirstsOnlyFirsts`: one more name keeps only first names. */
  lemma FirstsOnlyFirstsSnoc(p: seq<string>, x: string)
    requires OnlyFirsts(Firsts(p), p)
    ensures OnlyFirsts(Firsts(p + [x]), p + [x])
  {
    FirstsSnoc(p, x);
    FirstsStepSound(p, x, Firsts(p), Firsts(p + [x]), Normalize(x) !in NormSet(p));
  }

  /** `Firsts` keeps the first name of every key. */
  lemma {:induction false} FirstsAllFirsts(s: seq<string>)
    ensures AllFirsts(Firsts(s), s)
  {
    if s != [] {
      var init, last := s[..|s| - 1], s[|s| - 1];
      assert s == init + [last];
      FirstsAllFirsts(init);
      FirstsAllFirstsSnoc(init, last);
    }
  }

  /** Induction step of `FirstsAllFirsts`: one more name keeps every first name. */
  lemma FirstsAllFirstsSnoc(p: seq<string>, x: string)
    requires AllFirsts(Firsts(p), p)
    ensures AllFirsts(Firsts(p + [x]), p + [x])
  {
    FirstsSnoc(p, x);
    FirstsStepComplete(p, x, Firsts(p), Firsts(p + [x]), Normalize(x) !in NormSet(p));
  }

  /** The keys `Firsts` keeps come in the order they are first seen in its input. */
  lemma {:induction false} FirstsSeenOrder(s: seq<string>)
    ensures InFirstSeenOrder(Firsts(s), s)
  {
    if s != [] {
      var init, last := s[..|s| - 1], s[|s| - 1];
      assert s == init + [last];
      FirstsSeenOrder(init);
      FirstsSeenOrderSnoc(init, last);
    }
  }

  /** Induction step of `FirstsSeenOrder`: one more name keeps first-seen order. */
  lemma FirstsSeenOrderSnoc(p: seq<string>, x: string)
    requires InFirstSeenOrder(Firsts(p), p)
    ensures InFirstSeenOrder(Firsts(p + [x]), p + [x])
  {
    FirstsSnoc(p, x);
    FirstsStepSeenOrder(p, x, Firsts(p), Firsts(p + [x]), Normalize(x) !in NormSet(p));
  }

  /** Whether the last name's key is new decides whether it is a first occurrence. */
  lemma FirstOfKeyLast(init: seq<string>, m: string)
    ensures Normalize(m) !in NormSet(init) <==> FirstOfKey(init + [m], |init|)
  {
    var s := init + [m];
    if Normalize(m) in NormSet(init) {
      var x :| x in init && Normalize(x) == Normalize(m);
      var k :| 0 <= k < |init| && init[k] == x;
      assert s[k] == x;
    } else {
      forall k | 0 <= k < |init| ensures Normalize(s[k]) != Normalize(m) {
        assert s[k] == init[k];
      }
    }
  }

  /** The first occurrences before the last name are those of `init`. */
  lemma FirstOfKeyPrefix(init: seq<string>, m: string, j: int)
    requires 0 <= j < |init|
    ensures FirstOfKey(init + [m], j) <==> FirstOfKey(init, j)
  {
    var s := init + [m];
    assert forall k :: 0 <= k <= j ==> s[k] == init[k];
  }

  /** Step of `Firsts`: the result stays a subsequence. */
  lemma FirstsStepOrder(init: seq<string>, m: string, p: seq<string>, r: seq<string>, isNew: bool)
    requires Subsequence(p, init)
    requires r == if isNew then p + [m] else p
    ensures Subsequence(r, init + [m])
  {
    if isNew {
      SubsequenceSnocBoth(p, init, m);
    } else {
      SubsequenceSnocRight(p, init, m);
    }
  }

  /** Step of `Firsts`: every kept name is a first occurrence. */
  lemma FirstsStepSound(init: seq<string>, m: string, p: seq<string>, r: seq<string>, isNew: bool)
    requires OnlyFirsts(p, init)
    requires isNew <==> Normalize(m) !in NormSet(init)
    requires r == if isNew then p + [m] else p
    ensures OnlyFirsts(r, init + [m])
  {
    var s := init + [m];
    forall i | 0 <= i < |r|
      ensures IsFirstOfKey(s, r[i])
    {
      if i < |p| {
        assert IsFirstOfKey(init, p[i]);
        var j :| 0 <= j < |init| && init[j] == p[i] && FirstOfKey(init, j);
        FirstOfKeyPrefix(init, m, j);
        assert 0 <= j < |s| && s[j] == r[i] && FirstOfKey(s, j);
      } else {
        FirstOfKeyLast(init, m);
        assert 0 <= |init| < |s| && s[|init|] == r[i] && FirstOfKey(s, |init|);
      }
    }
  }

  /** Step of `Firsts`: every first occurrence is kept. */
  lemma FirstsStepComplete(init: seq<string>, m: string, p: seq<string>, r: seq<string>, isNew: bool)
    requires AllFirsts(p, init)
    requires isNew <==> Normalize(m) !in NormSet(init)
    requires r == if isNew then p + [m] else p
    ensures AllFirsts(r, init + [m])
  {
    var s := init + [m];
    forall j | 0 <= j < |s| && FirstOfKey(s, j) ensures s[j] in r {
      if j < |init| {
        FirstOfKeyPrefix(init, m, j);
        assert s[j] == init[j];
      } else {
        FirstOfKeyLast(init, m);
      }
    }
  }

  /** Step of `Firsts`: the kept keys stay in first-seen order. */
  lemma FirstsStepSeenOrder(init: seq<string>, m: string, p: seq<string>, r: seq<string>, isNew: bool)
    requires InFirstSeenOrder(p, init)
    requires forall x :: x in p ==> x in init
    requires isNew <==> Normalize(m) !in NormSet(init)
    requires r == if isNew then p + [m] else p
    ensures InFirstSeenOrder(r, init + [m])
  {
    var s := init + [m];
    forall i, j, b | 0 <= i < j < |r| && 0 <= b < |s| && Normalize(s[b]) == Normalize(r[j])
      ensures Normalize(r[i]) in NormSet(s[..b])
    {
      assert r[i] == p[i] && p[i] in init;
      if b < |init| {
        assert s[..b] == init[..b] && s[b] == init[b];
        if j < |p| {
          assert r[j] == p[j];
        }
      } else {
        assert s[..b] == init;
      }
    }
  }

  /** Step of `Firsts`: keys stay distinct and cover those of the input. */
  lemma FirstsStepKeys(init: seq<string>, m: string, p: seq<string>, r: seq<string>, isNew: bool)
    requires NormDistinct(p) && NormSet(p) == NormSet(init)
    requires forall x :: x in p ==> x in init
    requires |p| <= |init|
    requires init != [] ==> p != [] && p[0] == init[0]
    requires isNew <==> Normalize(m) !in NormSet(init)
    requires r == if isNew then p + [m] else p
    ensures NormDistinct(r) && NormSet(r) == NormSet(init + [m])
    ensures forall x :: x in r ==> x in init + [m]
    ensures |r| <= |init + [m]|
    ensures r != [] && r[0] == (init + [m])[0]
  {
    assert NormSet(init + [m]) == NormSet(init) + {Normalize(m)};
    if isNew {
      assert NormSet(p + [m]) == NormSet(p) + {Normalize(m)};
    }
  }

  /** Appending one name extends the key set by its key, and the first occurrences by it when the key is new. */
  lemma FirstsSnoc(p: seq<string>, x: string)
    ensures NormSet(p + [x]) == NormSet(p) + {Normalize(x)}
    ensures Firsts(p + [x]) == if Normalize(x) in NormSet(p) then Firsts(p) else Firsts(p) + [x]
  {
    var t := p + [x];
    assert t[..|t| - 1] == p;
  }

  /** One more name of `s`: it is kept exactly when its key is new. */
  lemma DedupeStep(s: seq<string>, i: nat, kept: seq<string>, seen: set<string>)
    requires i < |s| && kept == Firsts(s[..i]) && seen == NormSet(s[..i])
    ensures seen + {Normalize(s[i])} == NormSet(s[..i + 1])
    ensures (if Normalize(s[i]) in seen then kept else kept + [s[i]]) == Firsts(s[..i + 1])
  {
    assert s[..i + 1] == s[..i] + [s[i]];
    FirstsSnoc(s[..i], s[i]);
  }

  /** The `final_move_list` / `seen` loop. */
  method DedupeByKey(s: seq<string>) returns (finalMoveList: seq<string>)
    ensures finalMoveList == Firsts(s)
  {
    finalMoveList := [];
    var seen: set<string> := {};
    var i := 0;
    assert s[..0] == [];
    while i < |s|
      invariant 0 <= i <= |s|
      invariant finalMoveList == Firsts(s[..i])
      invariant seen == NormSet(s[..i])
    {
      var norm := Normalize(s[i]);
      DedupeStep(s, i, finalMoveList, seen);
      if norm !in seen {
        finalMoveList := finalMoveList + [s[i]];
      }
      seen := seen + {norm};
      i := i + 1;
    }
    assert s[..i] == s;
  }

  /** A reordering of a list whose keys are distinct still has distinct keys. */
  lemma PermutedNormDistinct(s: seq<string>, t: seq<string>, perm: seq<nat>)
    requires NormDistinct(s) && IsPermutation(perm, |s|) && Tracks(t, s, perm)
    ensures NormDistinct(t)
  {
    forall i, j | 0 <= i < j < |t| ensures Normalize(t[i]) != Normalize(t[j]) {
      if perm[i] < perm[j] {
        assert Normalize(s[perm[i]]) != Normalize(s[perm[j]]);
      } else {
        assert Normalize(s[perm[j]]) != Normalize(s[perm[i]]);
      }
    }
  }

  // ---------------------------------------------------------------------
  // Translation of moves (the move-name lookup is a parameter)
  // ---------------------------------------------------------------------

  /** What the move-name service knows of a move, each language possibly missing. */
  datatype LocalNames = LocalNames(zh: Option<string>, ja: Option<string>, en: Option<string>)

  /** One displayed move: Chinese, Japanese and English text. */
  datatype MoveText = MoveText(zh: string, ja: string, en: string)

  /** A name the lookup gave, or `fallback` when it gave none or an empty one. */
  function NameOr(name: Option<string>, fallback: string): string
  {
    if name.Some? && name.value != "" then name.value else fallback
  }

  /**
   * `get_move_info(move_name)`: each language falls back to the raw move
   * name when the lookup failed, lacks that language or gave an empty name.
   */
  function MoveInfo(moveName: string, found: Option<LocalNames>): (t: MoveText)
    ensures found.None? ==> t == MoveText(moveName, moveName, moveName)
    ensures found.Some? && found.value.zh.Some? && found.value.zh.value != "" ==> t.zh == found.value.zh.value
    ensures found.Some? && found.value.ja.Some? && found.value.ja.value != "" ==> t.ja == found.value.ja.value
    ensures found.Some? && found.value.en.Some? && found.value.en.value != "" ==> t.en == found.value.en.value
    ensures found.Some? && (found.value.zh.None? || found.value.zh.value == "") ==> t.zh == moveName
    ensures found.Some? && (found.value.ja.None? || found.value.ja.value == "") ==> t.ja == moveName
    ensures found.Some? && (found.value.en.None? || found.value.en.value == "") ==> t.en == moveName
  {
    match found
    case None => MoveText(moveName, moveName, moveName)
    case Some(n) => MoveText(NameOr(n.zh, moveName), NameOr(n.ja, moveName), NameOr(n.en, moveName))
  }

  /** The `translated_moves` loop; the service is asked about the normalised move name. */
  method TranslateMoves(moves: seq<string>, moveApi: string -> Option<LocalNames>) returns (translated: seq<MoveText>)
    ensures |translated| == |moves|
    ensures forall i :: 0 <= i < |moves| ==> translated[i] == MoveInfo(moves[i], moveApi(Normalize(moves[i])))
  {
    translated := [];
    var i := 0;
    while i < |moves|
      invariant 0 <= i <= |moves|
      invariant |translated| == i
      invariant forall k :: 0 <= k < i ==> translated[k] == MoveInfo(moves[k], moveApi(Normalize(moves[k])))
    {
      translated := translated + [MoveInfo(moves[i], moveApi(Normalize(moves[i])))];
      i := i + 1;
    }
  }

  // ---------------------------------------------------------------------
  // The question
  // ---------------------------------------------------------------------

  /** What the species service returns for the answer: id and names. */
  datatype Species = Species(id: int, ja: string, zh: string, en: string)

  /** The question dict: `moves_display`, `moves_raw`, the answer's names and id, `target_pm_name`, `source`, `rank`. */
  datatype MoveQuestion = MoveQuestion(
    display: seq<MoveText>, raw: seq<string>,
    answerName: string, answerJp: string, answerEn: string, answerId: int,
    target: string, source: string, rank: nat)

  /** The three random streams one question consumes. */
  datatype Rng = Rng(clues: nat -> nat, decoys: nat -> nat, shuffle: nat -> nat)

  /** The clues the question shows, for the given usage pool and banned set. */
  function CluesFor(vgc: UsageDb, target: string, banned: set<string>, rng: Rng): seq<string>
    requires target in vgc
  {
    SelectClues(CluePool(vgc[target].moves, banned), rng.clues)
  }

  /** The decoys the question shows: DISTRACTOR_NUM moves of the cache entry, clues excluded. */
  function DecoysFor(vgc: UsageDb, cache: Corpus, target: string, banned: set<string>, rng: Rng): seq<string>
    requires target in vgc
  {
    RandomMoves(cache, target, CluesFor(vgc, target, banned, rng), DISTRACTOR_NUM, banned, rng.decoys)
  }

  /**
   * What the shown moves of a question about `target` satisfy: no two share
   * a key; at most CLUES_NUM + DISTRACTOR_NUM of them; each is a move of the
   * usage pool or of the answer's cache entry; at least one is genuinely in
   * the usage pool when that pool is not empty; none is banned unless every
   * move of the pool is.
   */
  predicate ValidShownMoves(raw: seq<string>, vgc: UsageDb, cache: Corpus, target: string, banned: set<string>)
    requires target in vgc
  {
    && NormDistinct(raw)
    && |raw| <= CLUES_NUM + DISTRACTOR_NUM
    && (forall m :: m in raw ==> m in vgc[target].moves || m in ResolvedMoves(cache, target))
    && (vgc[target].moves != [] ==> exists m :: m in raw && m in vgc[target].moves)
    && ((exists m :: m in vgc[target].moves && Normalize(m) !in banned) ==>
          forall m :: m in raw ==> Normalize(m) !in banned)
  }

  /**
   * What every generated move question satisfies: it is about a usage entry
   * and carries that entry's source and rank, its shown moves are valid, and
   * every shown move has its translation.
   */
  predicate ValidMoveQuestion(q: MoveQuestion, vgc: UsageDb, cache: Corpus, banned: set<string>)
  {
    && q.target in vgc
    && q.source == vgc[q.target].source && q.rank == vgc[q.target].rank
    && |q.display| == |q.raw|
    && ValidShownMoves(q.raw, vgc, cache, q.target, banned)
  }

  /** Two lists with the same multiset have the same members, keys and length. */
  lemma SameMultisetSameMembers(s: seq<string>, t: seq<string>)
    requires multiset(s) == multiset(t)
    ensures forall m :: m in s <==> m in t
    ensures NormSet(s) == NormSet(t)
    ensures |s| == |t|
  {
    assert |s| == |multiset(s)| == |multiset(t)| == |t|;
    forall m ensures m in s <==> m in t {
      assert m in s <==> m in multiset(s);
      assert m in t <==> m in multiset(t);
    }
  }

  /**
   * The shown moves inherit membership, length and the ban from the clues
   * and decoys they are drawn from.
   */
  lemma ShownFromParts(clues: seq<string>, decoys: seq<string>, deduped: seq<string>, raw: seq<string>,
                       pool: seq<string>, entryMoves: seq<string>, banned: set<string>)
    requires multiset(raw) == multiset(deduped)
    requires NormSet(deduped) == NormSet(clues + decoys) && |deduped| <= |clues + decoys|
    requires forall m :: m in deduped ==> m in clues + decoys
    requires clues != [] ==> deduped != [] && deduped[0] == clues[0]
    requires |clues| <= CLUES_NUM && |decoys| <= DISTRACTOR_NUM
    requires forall m :: m in clues ==> m in pool
    requires forall m :: m in decoys ==> m in entryMoves && Normalize(m) !in banned
    requires pool != [] ==> clues != []
    requires (exists m :: m in pool && Normalize(m) !in banned) ==> forall m :: m in clues ==> Normalize(m) !in banned
    ensures |raw| <= CLUES_NUM + DISTRACTOR_NUM
    ensures forall m :: m in raw ==> m in pool || m in entryMoves
    ensures pool != [] ==> exists m :: m in raw && m in pool
    ensures (exists m :: m in pool && Normalize(m) !in banned) ==> forall m :: m in raw ==> Normalize(m) !in banned
    ensures forall m :: m in clues ==> Normalize(m) in NormSet(raw)
  {
    var both := clues + decoys;
    SameMultisetSameMembers(raw, deduped);
    assert NormSet(both) == NormSet(clues) + NormSet(decoys);
    if pool != [] {
      assert deduped[0] in raw;
    }
  }

  /** The clues: at most CLUES_NUM moves of the usage pool, at least one when it is not empty, none banned unless all are. */
  lemma CluesFacts(vgc: UsageDb, target: string, banned: set<string>, rng: Rng)
    requires target in vgc
    ensures |CluesFor(vgc, target, banned, rng)| <= CLUES_NUM
    ensures forall m :: m in CluesFor(vgc, target, banned, rng) ==> m in vgc[target].moves
    ensures vgc[target].moves != [] ==> CluesFor(vgc, target, banned, rng) != []
    ensures (exists m :: m in vgc[target].moves && Normalize(m) !in banned) ==>
      forall m :: m in CluesFor(vgc, target, banned, rng) ==> Normalize(m) !in banned
  {
  }

  /** The decoys: at most DISTRACTOR_NUM moves of the answer's cache entry, none banned. */
  lemma DecoysFacts(vgc: UsageDb, cache: Corpus, target: string, banned: set<string>, rng: Rng)
    requires target in vgc
    ensures |DecoysFor(vgc, cache, target, banned, rng)| <= DISTRACTOR_NUM
    ensures forall m :: m in DecoysFor(vgc, cache, target, banned, rng) ==> m in ResolvedMoves(cache, target) && Normalize(m) !in banned
  {
  }

  /** One round of question generation: the drawn target and what the species lookup answered. */
  datatype MoveAttempt = MoveAttempt(target: string, species: Option<Species>)

  /** The first attempt whose species lookup answered, if any. */
  function FirstAnswered(attempts: seq<MoveAttempt>): (r: Option<nat>)
    ensures r.Some? ==> r.value < |attempts| && attempts[r.value].species.Some?
    ensures r.Some? ==> forall k :: 0 <= k < r.value ==> attempts[k].species.None?
    ensures r.None? <==> forall k :: 0 <= k < |attempts| ==> attempts[k].species.None?
  {
    FirstWhere(attempts, (a: MoveAttempt) => a.species.Some?)
  }

  /** The question answers attempt `a`: its target, and the names and id the species lookup gave. */
  predicate AnswersAttempt(q: MoveQuestion, a: MoveAttempt)
  {
    && a.species.Some?
    && q.target == a.target
    && q.answerId == a.species.value.id && q.answerName == a.species.value.zh
    && q.answerJp == a.species.value.ja && q.answerEn == a.species.value.en
  }

  /** A failed first attempt: the first answered attempt is the first answered one of the rest, one place later. */
  lemma FirstAnsweredSkip(attempts: seq<MoveAttempt>)
    requires attempts != [] && attempts[0].species.None?
    ensures FirstAnswered(attempts).Some? <==> FirstAnswered(attempts[1..]).Some?
    ensures FirstAnswered(attempts).Some? ==>
      attempts[FirstAnswered(attempts).value] == attempts[1..][FirstAnswered(attempts[1..]).value]
  {
  }

  /**
   * How the shown moves of a question about `target` were made: they are a
   * rearrangement of the first occurrence of every key among the clues and
   * then the decoys, every clue's key is shown, and each shown move is
   * displayed with its own translation.
   */
  predicate BuiltFrom(q: MoveQuestion, vgc: UsageDb, cache: Corpus, banned: set<string>, target: string,
                      moveApi: string -> Option<LocalNames>, rng: Rng)
    requires target in vgc
  {
    && multiset(q.raw) == multiset(Firsts(CluesFor(vgc, target, banned, rng) + DecoysFor(vgc, cache, target, banned, rng)))
    && (forall m :: m in CluesFor(vgc, target, banned, rng) ==> Normalize(m) in NormSet(q.raw))
    && |q.display| == |q.raw|
    && (forall i :: 0 <= i < |q.raw| ==> q.display[i] == MoveInfo(q.raw[i], moveApi(Normalize(q.raw[i]))))
  }

  /** Shuffling the de-duplicated list: a rearrangement that keeps the keys distinct. */
  method ShuffleMoves(moves: seq<string>, rand: nat -> nat) returns (shuffled: seq<string>)
    requires NormDistinct(moves)
    ensures multiset(shuffled) == multiset(moves)
    ensures NormDistinct(shuffled)
  {
    var a := new string[|moves|](i requires 0 <= i < |moves| => moves[i]);
    assert a[..] == moves;
    ghost var perm := Shuffle(a, rand);
    shuffled := a[..];
    PermutedNormDistinct(moves, shuffled, perm);
  }

  /**
   * One successful generation, once the target has been drawn and the
   * species lookup has answered: clues, decoys, de-duplication, shuffle,
   * translation and the question dict.
   */
  method BuildMoveQuestion(vgc: UsageDb, cache: Corpus, banned: set<string>, target: string, sp: Species,
                           moveApi: string -> Option<LocalNames>, rng: Rng)
    returns (q: MoveQuestion)
    requires target in vgc
    ensures ValidMoveQuestion(q, vgc, cache, banned)
    ensures q.target == target && q.answerId == sp.id
    ensures q.answerName == sp.zh && q.answerJp == sp.ja && q.answerEn == sp.en
    ensures BuiltFrom(q, vgc, cache, banned, target, moveApi, rng)
  {
    var pmData := vgc[target];
    var validPool := CluePool(pmData.moves, banned);
    var vgcMoves := SelectClues(validPool, rng.clues);
    var randomFillers := GetRandomMovesFromCache(cache, target, vgcMoves, DISTRACTOR_NUM, banned, rng.decoys);
    assert vgcMoves == CluesFor(vgc, target, banned, rng);
    assert randomFillers == DecoysFor(vgc, cache, target, banned, rng);
    var deduped := DedupeByKey(vgcMoves + randomFillers);
    var finalMoveList := ShuffleMoves(deduped, rng.shuffle);
    CluesFacts(vgc, target, banned, rng);
    DecoysFacts(vgc, cache, target, banned, rng);
    ShownFromParts(vgcMoves, randomFillers, deduped, finalMoveList, pmData.moves, ResolvedMoves(cache, target), banned);

    var translated := TranslateMoves(finalMoveList, moveApi);
    q := MoveQuestion(translated, finalMoveList, sp.zh, sp.ja, sp.en, sp.id, target, pmData.source, pmData.rank);
  }
}
