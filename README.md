# Pokémon VGC move quiz — a Dafny model of the quiz engine

Two Streamlit scripts, `web_game_4.py` (newer) and `web_game_3.py` (older), show a
quiz: a few moves are displayed, one or more taken from the usage statistics of a
Pokémon in recent VGC data ("clues"), the others drawn from the full move list of
that Pokémon in a reference cache ("decoys"), and the player guesses the Pokémon.
Both scripts share one engine, which this project models once, parameterised by the
set of banned moves (`BANNED_MOVES` in the newer script, no ban in the older one):

- **Names** — `normalize_name`: lower case, spaces to hyphens.
- **Usage** — `load_vgc_data`: the `.json` files of the data folder are processed in
  reverse-sorted order; each file keeps its first 200 records, each record its first
  20 moves that are not `"Other"`; a Pokémon seen before gets its moves unioned, a
  new one records the file's label and its rank. The method `LoadVgcData` is the
  loop, proved equal to the specification function `LoadSpec`.
- **Sampling** — `random.sample` (pick-and-remove) and `random.shuffle` (the
  Fisher–Yates walk CPython performs) driven by a supplied random stream; the shuffle
  works in place on an array and returns, as a ghost, the permutation it applied.
- **Reference** — the reference cache as an ordered list of (key, entry) pairs (the
  iteration order of a Python dict): exact-then-prefix lookup, decoy selection
  (`get_random_moves_from_cache`) and the ambiguity scan (`find_other_matches`).
- **Questions** — clue pool with banned-move fallback, clue sampling, first-occurrence
  de-duplication by normalised key, shuffle, translation of each move, and the
  question record.
- **Board** — the newer script's shared `GameServer` and the two generators that
  post to it (`generate_move_question`, `generate_stat_question`).
- **Session** — the older script's `generate_new_question`, which writes the
  browser session instead.

Network lookups (species names and ids, move names) are parameters: a function for
move translations, and for the generators a list of attempts, each holding the drawn
Pokémon and what the lookup answered. The clock is a `now` parameter.

Three behaviours of the code are worth stating outright, since the model follows them:

- A Pokémon already present keeps its source and rank, so both come from the
  **first** file in reverse-sorted order that lists it, not the last one merged
  (`Usage.MergeFilesOrigin`).
- The generators never read their `is_admin` argument: every successful generation
  overwrites the shared board, including the one a player triggers with the
  self-play button at web_game_4.py:306-307 (`Board.GenerateMoveQuestion`,
  `Board.GenerateStatQuestion`). The UI does read the role elsewhere, to choose which
  buttons and hints to show.
- Usage records are keyed by the raw `name` field, not a normalised name, and a
  Pokémon that occurs in only one record keeps that record's move pool as it is,
  duplicates included (a second record of the same name, in the same file or a later
  one, merges and de-duplicates).

## Model

| member | source | states |
|---|---|---|
| Names.Lower | web_game_4.py:50 | `str.lower` keeps the length, turns each upper-case ASCII letter into its lower-case letter and keeps every other character, so no upper-case letter is left |
| Names.Normalize | web_game_4.py:49-50 | the key has the name's length; each space of the name becomes `-` and every other character is its lower-cased one, so the key has no space and no upper-case letter |
| Names.NormalizeIdempotent | web_game_4.py:49-50 | normalising a key again leaves it unchanged |
| Names.NormalizeIsLowerWithoutSpaces | web_game_4.py:49-50 | on a name without spaces, normalising is just lower-casing |
| Usage.RemoveAll | web_game_4.py:62 | `str.replace(pat, '')` never lengthens the file name and leaves a name without `pat` unchanged |
| Usage.SourceLabel | web_game_4.py:62 | the label is no longer than the file name, and equals it when the name contains neither `.json` nor `_FULL` |
| Usage.SourceLabelOfFullFile | web_game_4.py:62 | a file named `<label>_FULL.json`, the label containing neither pattern, yields exactly `<label>` |
| Usage.StrLt | web_game_4.py:59 | Python's `str` order: `a < b` iff the two agree up to some position where `a` ends or has the smaller code point while `b` goes on |
| Usage.JsonFiles | web_game_4.py:57 | exactly the listed files whose name ends in `.json` are kept, each at most as often as listed |
| Usage.InsertDescending | web_game_4.py:59 | inserting one file into a descending list keeps it descending and adds exactly that file |
| Usage.SortDescending | web_game_4.py:59 | `files.sort(reverse=True)`: the result is descending in Python string order and a permutation of the input |
| Usage.ValidMoves | web_game_4.py:71 | the record's moves in their order with every `"Other"` dropped: a subsequence, each other move as often as in the record |
| Usage.MovePool | web_game_4.py:71-72 | the pool is the first min(20, #valid) valid moves, none of them `"Other"` |
| Usage.Top | web_game_4.py:66 | exactly the first min(200, #records) records of a file, in order |
| Usage.Distinct | web_game_4.py:75 | `list(set(...))`: the same moves, none twice |
| Usage.MergeRecordEffect | web_game_4.py:73-77 | one record merged: its name is added and no other entry changes; the moves are the old ones together with the record's pool, and an existing entry's merged moves hold no move twice (`list(set(...))`); an existing entry keeps source and rank, a new one takes the file's label and the record's rank |
| Usage.MergeTopList | web_game_4.py:67-77 | the loop over one file's top list computes `MergeRecords` of that list |
| Usage.LoadVgcData | web_game_4.py:53-79 | the loop over files and records computes `LoadSpec` of the listing (empty for an unreadable folder); every rank lies in 1..200 |
| Usage.MergeRecordsDomain | web_game_4.py:67-77 | after merging one file, a Pokémon is present iff it was before or the file lists it |
| Usage.MergeRecordsMoves | web_game_4.py:73-77 | after merging one file, a move belongs to a Pokémon iff it did before or the file supplies it in that Pokémon's pool |
| Usage.MergeRecordsNoRepeats | web_game_4.py:73-77 | a Pokémon listed twice in one file, or listed by a file after it was already loaded, ends with a move list holding no move twice |
| Usage.MergeRecordsKeepsOrigin | web_game_4.py:73-75 | a Pokémon already present keeps its source and rank |
| Usage.MergeRecordsOrigin | web_game_4.py:68-77 | a new Pokémon gets the file's label and the index + 1 of its first record |
| Usage.MergeRecordsRanks | web_game_4.py:66-68 | merging a file of at most 200 records keeps every rank in 1..200 |
| Usage.MergeFilesRanks | web_game_4.py:60-77 | merging any files keeps every rank in 1..200 |
| Usage.MergeRanksInRange | web_game_4.py:53-79 | every rank of the loaded data lies in 1..200 |
| Usage.MergeFilesDomain | web_game_4.py:60-77 | a Pokémon is loaded iff some readable file lists it among its first 200 records |
| Usage.MergeFilesMoves | web_game_4.py:60-77 | a Pokémon's moves are exactly the union of its per-file pools (first 20 non-`"Other"` moves) |
| Usage.MergeFilesNoRepeats | web_game_4.py:60-77 | a Pokémon listed at two places across the files ends with a move list holding no move twice |
| Usage.MergeFilesKeepsOrigin | web_game_4.py:73-75 | later files never change a Pokémon's source or rank |
| Usage.MergeFilesOrigin | web_game_4.py:59-77 | source and rank come from the first file in processing order that lists the Pokémon |
| Usage.MergeFilesSplit | web_game_4.py:60 | merging a list of files is merging a prefix, then the rest |
| Usage.MergeFilesAppend | web_game_4.py:60 | merging a list of files is merging the first, then the rest |
| Sampling.Sample | web_game_4.py:153 | `random.sample(pool, k)` returns k elements drawn from distinct positions of the pool |
| Sampling.Swap | web_game_4.py:204 | one exchange of the shuffle: the two cells are exchanged and nothing else changes |
| Sampling.Shuffle | web_game_4.py:204 | `random.shuffle` in place: the new contents are the old ones rearranged by a permutation |
| Reference.ExactIndex | web_game_4.py:135 | the first position whose key equals the key, or none iff there is none |
| Reference.FirstWithPrefix | web_game_4.py:137-141 | the first position whose key starts with the prefix, or none iff there is none |
| Reference.FindPrefixKey | web_game_4.py:137-141 | the `for key ... break` loop finds exactly the first key with the prefix |
| Reference.ResolveIndex | web_game_4.py:134-143 | an exact key wins; otherwise the first key extending the normalised name with `-`; none iff neither exists |
| Reference.ResolvedKeyExtendsName | web_game_4.py:134-141 | the resolved key is the normalised name or that name followed by `-` and more |
| Reference.MewNeverResolvesToMewtwo | web_game_3.py:124-127 | with only `mewtwo` cached, "Mew" does not resolve: the `-` guard stops the prefix match |
| Reference.MewtwoResolvesExactly | web_game_3.py:124-127 | "Mewtwo" resolves to `mewtwo`, not through the `mew` entry |
| Reference.LandorusResolvesToForm | web_game_3.py:111-131 | "Landorus" resolves to `landorus-incarnate` when only that form is cached |
| Reference.Candidates | web_game_4.py:145-150 | a move is a candidate iff it is in the entry and its key is neither excluded nor banned |
| Reference.CandidatesSubMultiset | web_game_4.py:145-150 | filtering keeps each move at most as often as the entry lists it |
| Reference.FilterCandidates | web_game_4.py:145-150 | the `candidate_moves` loop computes `Candidates` |
| Reference.RandomMoves | web_game_4.py:133-153 | an unresolved name gives []; otherwise min(count, #candidates) candidates from distinct positions, each in the entry, none excluded or banned; count 0 gives [] |
| Reference.GetRandomMovesFromCache | web_game_4.py:133-153 | the lookup and the `candidate_moves` loop compute `RandomMoves` |
| Reference.Describe | web_game_4.py:163-164 | a reported entry shows its own Chinese, Japanese and English names, falling back to the key, 'N/A' and the key (the older script's web_game_3.py:190-194 does the same) |
| Reference.ScanMatches | web_game_4.py:158-164 | an entry is reported iff its key differs case-insensitively from the answer and it knows every clue key; no more reports than entries |
| Reference.FindOtherMatches | web_game_4.py:155-165 | an empty cache gives []; otherwise the scan over the normalised clues, both directions |
| Reference.ScanMatchesAppend | web_game_4.py:158-164 | the reports follow cache order: scanning a concatenation concatenates the reports |
| Reference.ScanMatchesMonotone | web_game_4.py:158-164 | with more clue keys the reports are a subsequence of those with fewer |
| Reference.AddingClueNeverAddsMatch | web_game_4.py:155-165 | adding a clue never adds a report and keeps the rest in order |
| Reference.FlutterManeReportedAgainstItself | web_game_4.py:160 | as written: the answer "Flutter Mane" resolves to `flutter-mane` yet that entry is reported as another match |
| Reference.FlutterManeKey | web_game_4.py:49-50 | "Flutter Mane" normalises to `flutter-mane` |
| Reference.FlutterManeResolves | web_game_4.py:134-135 | "Flutter Mane" resolves to the `flutter-mane` entry |
| Reference.ScanMatchesExcept | web_game_4.py:158-164 | corrected scan: an entry is reported iff it is not the answer's resolved entry and knows every clue key |
| Reference.FindOtherMatchesCorrected | web_game_4.py:155-165 | corrected `find_other_matches`: the answer's own entry is never reported, every other entry knowing the clues is |
| Reference.ScanMatchesExceptNone | web_game_4.py:158-164 | when no other entry knows the clues, the corrected scan reports nothing |
| Reference.UniqueWhenOnlyAnswerKnowsClues | web_game_4.py:155-165 | corrected: a clue set only the answer knows is reported as unique |
| Reference.FlutterManeUniqueWhenCorrected | web_game_4.py:160 | corrected: the "Flutter Mane" case reports nothing |
| Questions.Unbanned | web_game_4.py:190 | a move is kept iff it is in the pool and its key is not banned |
| Questions.UnbannedNothingBanned | web_game_3.py:214-215 | with nothing banned the filter is the identity |
| Questions.CluePool | web_game_4.py:190-191 | the unbanned moves when there are any, otherwise the whole pool; empty iff the pool is |
| Questions.CluePoolWithoutBans | web_game_3.py:214-215 | the older script's clue pool is the whole usage pool |
| Questions.SelectClues | web_game_4.py:194-195 | min(CLUES_NUM, #pool) clues from distinct positions of the pool |
| Questions.Firsts | web_game_4.py:197-203 | no key twice, the same keys as the input, only moves of the input, never longer, and the input's first move first |
| Questions.FirstsSubsequence | web_game_4.py:197-203 | the kept moves are a subsequence of the input: its order is kept |
| Questions.FirstsOnlyFirsts | web_game_4.py:197-203 | each kept move is the first move of the input with its key |
| Questions.FirstsAllFirsts | web_game_4.py:197-203 | the first move of the input with each key is kept |
| Questions.FirstsSeenOrder | web_game_4.py:197-203 | the kept keys come in first-seen order: of two kept moves, the earlier one's key is seen in the input before any occurrence of the later one's |
| Questions.DedupeByKey | web_game_4.py:197-203 | the `final_move_list`/`seen` loop computes `Firsts` |
| Questions.PermutedNormDistinct | web_game_4.py:204 | shuffling keeps the keys distinct |
| Questions.ShuffleMoves | web_game_4.py:204 | the shuffled list is a rearrangement of the deduped one and still has distinct keys |
| Questions.MoveInfo | web_game_4.py:113-131 | a failed lookup shows the move name in every language; for each of Chinese, Japanese and English, a non-empty name from the lookup is shown, and a missing or empty one falls back to the move name |
| Questions.TranslateMoves | web_game_4.py:205-208 | one translation per shown move, in order, looked up by its key |
| Questions.CluesFacts | web_game_4.py:190-195 | at most CLUES_NUM clues, all from the usage pool, at least one when the pool is not empty, none banned unless every pool move is |
| Questions.DecoysFacts | web_game_4.py:196 | at most DISTRACTOR_NUM decoys, all from the answer's cache entry, none banned |
| Questions.ShownFromParts | web_game_4.py:194-204 | the shown moves inherit pool membership, the CLUES_NUM + DISTRACTOR_NUM bound and the ban from clues and decoys |
| Wrappers.FirstWhere | web_game_4.py:193 | where a retry chain stops: the first attempt that succeeds, none iff none does |
| Questions.FirstAnswered | web_game_4.py:192-193 | the first attempt whose species lookup answered, none iff none did |
| Questions.BuildMoveQuestion | web_game_4.py:187-215 | the question is valid, its shown moves are a rearrangement of `Firsts(clues + decoys)` showing every clue's key, each displayed with its own translation, and it carries the answer's names and id and the entry's source and rank |
| Board.GameServer.constructor | web_game_4.py:33-37 | a new board holds no question and the current time |
| Board.GameServer.PostMove | web_game_4.py:218-219 | posting a move question overwrites the move slot and the time and keeps the stat slot |
| Board.GameServer.PostStat | web_game_4.py:251-252 | posting a stat question overwrites the stat slot and the time and keeps the move slot |
| Board.GenerateMoveQuestion | web_game_4.py:179-220 | no usage data or no answered attempt: None and the board unchanged; otherwise the question for the first answered attempt, built from that target's clues and decoys and translated move by move, posted on the board with the time, whatever `is_admin` is |
| Board.FirstStatUsable | web_game_4.py:226-239 | the first attempt whose target is in the stat cache and whose id is non-zero, none iff none is |
| Board.GenerateStatQuestion | web_game_4.py:222-253 | no usage data or no usable attempt: None and the board unchanged; otherwise stats and names (zh and en falling back to the drawn name, ja to 'N/A') of the resolved entry, the id, and the usage source and rank, posted with the time |
| Session.QuizSession.constructor | web_game_3.py:265-266 | a new browser session holds no question |
| Session.OlderCluesFromWholePool | web_game_3.py:214-215 | without a ban the clues are sampled from the whole usage pool |
| Session.GenerateNewQuestion | web_game_3.py:197-248 | no usage data or no answered attempt leaves the session as it was; otherwise the valid question for the first answered attempt, built with no ban from that target's clues and decoys and translated move by move, replaces `current_q` and hides the answer |

## Left out

- The Streamlit UI, layout, buttons, `st.rerun`, the sidebar password and the display formatting (the Markdown of each move, the match strings, the sum of base stats): presentation only.
- Questions.MoveInfo: the Chinese name's OpenCC conversion and the `'巖'→'岩'` replacement (which also touches the fallback move name) are text processing left to a foreign library; the model shows the name the lookup gave, or the move name.
- The PokeAPI calls (`get_pokemon_names_api`, `get_pokemon_names`, `get_pokemon_id`, `get_move_info`): network I/O, replaced by their outcomes as parameters.
- File listing, `open` and `json.load`: the model starts from the listing with each file already parsed, or marked unreadable; a file that fails midway through its records (an exception after some records were merged) is not modelled, only a file that fails as a whole.
- `@st.cache_data` and `@st.cache_resource`: caching only; the shared board is one `GameServer` object passed to the generators.
- `time.time`, `time.sleep` and concurrent sessions on the shared board: a clock and threads; the time is a parameter.
- Board.GenerateMoveQuestion: the unbounded retry on a failed species lookup is bounded by the attempts supplied; when they run out the model returns None and writes nothing.
- Board.GenerateStatQuestion: the unbounded retry on a missing cache entry or an id of 0 or None is bounded by the attempts supplied; when they run out the model returns None and writes nothing. A cache entry that is an empty dict is falsy in Python and causes a retry; the model treats every found entry as present.
- Session.GenerateNewQuestion: the retry is bounded by the attempts supplied, like the newer script's.
- Usage.Distinct: `list(set(...))` has a hash-dependent order; the model fixes first-occurrence order, and its properties are stated about membership and no repeats, not about order.
- Names.Lower: `str.lower` is modelled on ASCII letters only; a non-ASCII capital is kept as it is.
- Names.Normalize: lower-cases through Names.Lower, so only ASCII letters, for the same reason.
- A record without a `moves` key, or a move without a `move` key: the model's records always carry a move list of names.

## Findings

| source | as written | input that shows it | evidently intended | confidence | as-written member | corrected member |
|---|---|---|---|---|---|---|
| web_game_4.py:160 (also web_game_3.py:187) | the answer is skipped only when a cache key equals the answer's raw name case-insensitively | cache `[("flutter-mane", moves ["moonblast"])]`, clue `"Moonblast"`, answer `"Flutter Mane"`: the answer's own entry is reported as another Pokémon with these moves | skip the entry the answer's name resolves to, so a clue set only the answer knows counts as unique | high; not executed | Reference.FlutterManeReportedAgainstItself | Reference.FindOtherMatchesCorrected |
