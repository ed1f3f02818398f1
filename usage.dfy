/**
 * The usage repository: `load_vgc_data` merges the ranked usage files of a
 * directory into one record per Pokémon name.
 *
 * Files are processed in descending order of their file names; each file
 * contributes its first TOP_N_POKEMON records; each record keeps its first
 * TOP_N_MOVES_POOL moves other than "Other".  A name seen again has its move
 * list extended and de-duplicated; a new name records the source label and
 * the rank (position in the file, from 1) of the file that introduced it.
 */
module Usage {
  import opened Wrappers
  import opened Names

  const TOP_N_POKEMON: nat := 200
  const TOP_N_MOVES_POOL: nat := 20
  const OTHER: string := "Other"

  /** One usage record of a file, after parsing: `{name, moves: [{move}, ...]}`. */
  datatype RawRecord = RawRecord(name: string, moves: seq<string>)

  /** One directory entry: its file name and, when it could be opened and parsed, its records. */
  datatype DataFile = DataFile(fileName: string, records: Option<seq<RawRecord>>)

  /** The merged entry of one Pokémon: `{"moves": ..., "source": ..., "rank": ...}`. */
  datatype UsageRecord = UsageRecord(moves: seq<string>, source: string, rank: nat)

  type UsageDb = map<string, UsageRecord>

  // ---------------------------------------------------------------------
  // Strings: suffixes, `str.replace`, Python's ordering of `str`
  // ---------------------------------------------------------------------

  /**
   * What Python's `str.replace(pat, '')` leaves of `s[i..]`: scanning from
   * `i`, an occurrence of `pat` is skipped whole and any other character is
   * kept, so occurrences are removed left to right without overlapping.
   */
  function RemoveFrom(s: string, pat: string, i: nat): (r: string)
    requires pat != [] && i <= |s|
    ensures |r| <= |s| - i
    decreases |s| - i
  {
    if i == |s| then []
    else if MatchAt(s, pat, i) then RemoveFrom(s, pat, i + |pat|)
    else [s[i]] + RemoveFrom(s, pat, i + 1)
  }

  /** Python's `str.replace` with an empty replacement, over the whole string. */
  function RemoveAll(s: string, pat: string): (r: string)
    requires pat != []
    ensures |r| <= |s|
    ensures !Contains(s, pat) ==> r == s
  {
    if Contains(s, pat) then RemoveFrom(s, pat, 0)
    else
      ContainsIffMatchAt(s, pat);
      RemoveFromKeeps(s, pat, 0, |s|);
      assert s[0..|s|] + RemoveFrom(s, pat, |s|) == s;
      RemoveFrom(s, pat, 0)
  }

  /** A position where `pat` does not occur keeps its character. */
  lemma RemoveFromKeepOne(s: string, pat: string, i: nat)
    requires pat != [] && i < |s| && !MatchAt(s, pat, i)
    ensures RemoveFrom(s, pat, i) == [s[i]] + RemoveFrom(s, pat, i + 1)
  {
  }

  /** An occurrence of `pat` at `i` is skipped whole. */
  lemma RemoveFromSkipOne(s: string, pat: string, i: nat)
    requires pat != [] && i < |s| && MatchAt(s, pat, i)
    ensures RemoveFrom(s, pat, i) == RemoveFrom(s, pat, i + |pat|)
  {
  }

  /** The slice `s[i..k]` is its first character followed by the rest. */
  lemma SliceCons(s: string, i: nat, k: nat)
    requires i < k <= |s|
    ensures s[i..k] == [s[i]] + s[i + 1..k]
  {
  }

  /** Prepending one character is associative with appending. */
  lemma ConsAppend(c: char, t: string, d: string)
    ensures [c] + (t + d) == ([c] + t) + d
  {
  }

  /** With no occurrence starting in `[i, k)`, those characters are all kept. */
  lemma {:induction false} RemoveFromKeeps(s: string, pat: string, i: nat, k: nat)
    requires pat != [] && i <= k <= |s|
    requires forall j :: i <= j < k ==> !MatchAt(s, pat, j)
    ensures RemoveFrom(s, pat, i) == s[i..k] + RemoveFrom(s, pat, k)
    decreases k - i
  {
    if i < k {
      RemoveFromKeepOne(s, pat, i);
      RemoveFromKeeps(s, pat, i + 1, k);
      SliceCons(s, i, k);
      ConsAppend(s[i], s[i + 1..k], RemoveFrom(s, pat, k));
    }
  }

  /** Position `|x| + j` of `x + y` is position `j` of `y`, for matching too. */
  lemma MatchShift(x: string, y: string, pat: string, j: nat)
    requires j < |y|
    ensures MatchAt(x + y, pat, |x| + j) <==> MatchAt(y, pat, j)
    ensures (x + y)[|x| + j] == y[j]
  {
  }

  /** One skipping step of the shift: an occurrence at `j` of `y` is one at `|x| + j` of `x + y`. */
  lemma ShiftSkip(x: string, y: string, pat: string, j: nat)
    requires pat != [] && j < |y| && MatchAt(y, pat, j)
    requires RemoveFrom(x + y, pat, |x| + (j + |pat|)) == RemoveFrom(y, pat, j + |pat|)
    ensures RemoveFrom(x + y, pat, |x| + j) == RemoveFrom(y, pat, j)
  {
    MatchShift(x, y, pat, j);
    RemoveFromSkipOne(x + y, pat, |x| + j);
    RemoveFromSkipOne(y, pat, j);
  }

  /** One keeping step of the shift: both sides keep the same character. */
  lemma ShiftKeep(x: string, y: string, pat: string, j: nat)
    requires pat != [] && j < |y| && !MatchAt(y, pat, j)
    requires RemoveFrom(x + y, pat, |x| + (j + 1)) == RemoveFrom(y, pat, j + 1)
    ensures RemoveFrom(x + y, pat, |x| + j) == RemoveFrom(y, pat, j)
  {
    MatchShift(x, y, pat, j);
    RemoveFromKeepOne(x + y, pat, |x| + j);
    RemoveFromKeepOne(y, pat, j);
  }

  /** Removal from `x + y` at `|x| + j` is removal from `y` at `j`. */
  lemma {:induction false} RemoveFromShift(x: string, y: string, pat: string, j: nat)
    requires pat != [] && j <= |y|
    ensures RemoveFrom(x + y, pat, |x| + j) == RemoveFrom(y, pat, j)
    decreases |y| - j
  {
    if j < |y| {
      if MatchAt(y, pat, j) {
        RemoveFromShift(x, y, pat, j + |pat|);
        ShiftSkip(x, y, pat, j);
      } else {
        RemoveFromShift(x, y, pat, j + 1);
        ShiftKeep(x, y, pat, j);
      }
    }
  }

  /**
   * Removing `pat` from `x + y` removes it from `y` alone when no occurrence
   * starts inside `x`.
   */
  lemma RemoveAllAfter(x: string, y: string, pat: string)
    requires pat != []
    requires forall k :: 0 <= k < |x| ==> !MatchAt(x + y, pat, k)
    ensures RemoveFrom(x + y, pat, 0) == x + RemoveFrom(y, pat, 0)
  {
    RemoveFromKeeps(x + y, pat, 0, |x|);
    RemoveFromShift(x, y, pat, 0);
    assert (x + y)[0..|x|] == x;
  }

  /** A window whose first character differs from the pattern's is no occurrence. */
  lemma FirstCharMismatch(s: string, pat: string, k: int)
    requires pat != [] && 0 <= k < |s| && s[k] != pat[0]
    ensures !MatchAt(s, pat, k)
  {
    assert s[k + 0] == s[k];
  }

  /**
   * With `pat` absent from `x`, no occurrence starts inside `x` once `y` is
   * appended, provided `y[0]` appears in `pat` at most as its first character.
   */
  lemma NoMatchBefore(x: string, y: string, pat: string)
    requires pat != [] && y != [] && !Contains(x, pat)
    requires forall i :: 1 <= i < |pat| ==> pat[i] != y[0]
    ensures forall k :: 0 <= k < |x| ==> !MatchAt(x + y, pat, k)
  {
    ContainsIffMatchAt(x, pat);
    forall k | 0 <= k < |x| ensures !MatchAt(x + y, pat, k) {
      if k + |pat| <= |x| {
        assert !MatchAt(x, pat, k);
        var m :| 0 <= m < |pat| && x[k + m] != pat[m];
        assert (x + y)[k + m] == x[k + m];
      } else if k + |pat| <= |x + y| {
        assert (x + y)[k + (|x| - k)] == y[0] != pat[|x| - k];
      }
    }
  }

  /** `.json` occurs in `_FULL.json` only at its end. */
  lemma JsonFromFullJson()
    ensures RemoveFrom("_FULL.json", ".json", 0) == "_FULL"
  {
    var full, json := "_FULL", ".json";
    assert full + json == "_FULL.json";
    forall k | 0 <= k < |full| ensures !MatchAt(full + json, json, k) {
      assert (full + json)[k] == full[k];
      assert full[k] in full;
      FirstCharMismatch(full + json, json, k);
    }
    RemoveAllAfter(full, json, json);
    assert MatchAt(json, json, 0);
    RemoveFromSkipOne(json, json, 0);
  }

  /** Removing `.json` from `<x>_FULL.json`. */
  lemma RemoveJson(x: string)
    requires !Contains(x, ".json")
    ensures RemoveAll(x + "_FULL.json", ".json") == x + "_FULL"
  {
    NoMatchBefore(x, "_FULL.json", ".json");
    RemoveAllAfter(x, "_FULL.json", ".json");
    JsonFromFullJson();
  }

  /** Removing `_FULL` from `<x>_FULL`. */
  lemma RemoveFull(x: string)
    requires !Contains(x, "_FULL")
    ensures RemoveAll(x + "_FULL", "_FULL") == x
  {
    NoMatchBefore(x, "_FULL", "_FULL");
    RemoveAllAfter(x, "_FULL", "_FULL");
    assert MatchAt("_FULL", "_FULL", 0);
    RemoveFromSkipOne("_FULL", "_FULL", 0);
  }
  /** The source label: the file name with every `.json`, then every `_FULL`, removed. */
  function SourceLabel(fileName: string): (r: string)
    ensures |r| <= |fileName|
    ensures !Contains(fileName, ".json") && !Contains(fileName, "_FULL") ==> r == fileName
  {
    RemoveAll(RemoveAll(fileName, ".json"), "_FULL")
  }

  /** The data files are named `<label>_FULL.json`: the label comes back out. */
  lemma SourceLabelOfFullFile(x: string)
    requires !Contains(x, ".json") && !Contains(x, "_FULL")
    ensures SourceLabel(x + "_FULL.json") == x
  {
    RemoveJson(x);
    RemoveFull(x);
  }

  /** Python's `a < b` on `str`: lexicographic on code points, a proper prefix first. */
  function StrLt(a: string, b: string): (lt: bool)
    ensures lt <==> exists i :: 0 <= i <= |a| && LtAt(a, b, i)
  {
    if b == [] then false
    else if a == [] || a[0] < b[0] then
      assert LtAt(a, b, 0);
      true
    else if a[0] == b[0] then
      var t := StrLt(a[1..], b[1..]);
      if t then
        var i :| 0 <= i <= |a[1..]| && LtAt(a[1..], b[1..], i);
        assert a[..i + 1] == [a[0]] + a[1..][..i];
        assert b[..i + 1] == [b[0]] + b[1..][..i];
        assert LtAt(a, b, i + 1);
        true
      else
        assert forall i :: 1 <= i <= |a| && LtAt(a, b, i) ==> LtAt(a[1..], b[1..], i - 1) by {
          forall i | 1 <= i <= |a| && LtAt(a, b, i) ensures LtAt(a[1..], b[1..], i - 1) {
            assert a[1..][..i - 1] == a[..i][1..];
            assert b[1..][..i - 1] == b[..i][1..];
          }
        }
        false
    else false
  }

  /** `a` and `b` agree before position `i`, where `a` ends or has the smaller code point. */
  predicate LtAt(a: string, b: string, i: int)
  {
    0 <= i <= |a| && i < |b| && a[..i] == b[..i] && (i == |a| || a[i] < b[i])
  }

  lemma {:induction false} StrLtAsymmetric(a: string, b: string)
    ensures !(StrLt(a, b) && StrLt(b, a))
  {
    if a != [] && b != [] && a[0] == b[0] {
      StrLtAsymmetric(a[1..], b[1..]);
    }
  }

  // ---------------------------------------------------------------------
  // The file list: the `.json` entries of the folder, in descending name order
  // ---------------------------------------------------------------------

  function JsonFiles(fs: seq<DataFile>): (r: seq<DataFile>)
    ensures forall f :: f in r <==> f in fs && EndsWith(f.fileName, ".json")
    ensures multiset(r) <= multiset(fs)
  {
    if fs == [] then []
    else
      assert fs == [fs[0]] + fs[1..];
      (if EndsWith(fs[0].fileName, ".json") then [fs[0]] else []) + JsonFiles(fs[1..])
  }

  /** Adjacent file names never increase. */
  predicate Descending(fs: seq<DataFile>)
  {
    forall i :: 0 <= i < |fs| - 1 ==> !StrLt(fs[i].fileName, fs[i + 1].fileName)
  }

  function InsertDescending(f: DataFile, fs: seq<DataFile>): (r: seq<DataFile>)
    requires Descending(fs)
    ensures Descending(r)
    ensures multiset(r) == multiset(fs) + multiset{f}
    ensures r != [] && (r[0] == f || (fs != [] && r[0] == fs[0]))
  {
    if fs == [] || !StrLt(f.fileName, fs[0].fileName) then [f] + fs
    else
      StrLtAsymmetric(f.fileName, fs[0].fileName);
      assert fs == [fs[0]] + fs[1..];
      [fs[0]] + InsertDescending(f, fs[1..])
  }

  /** Sorting the file list in reverse: the same files, in descending order of name. */
  function SortDescending(fs: seq<DataFile>): (r: seq<DataFile>)
    ensures Descending(r)
    ensures multiset(r) == multiset(fs)
  {
    if fs == [] then []
    else
      assert fs == [fs[0]] + fs[1..];
      InsertDescending(fs[0], SortDescending(fs[1..]))
  }

  // ---------------------------------------------------------------------
  // One record's move pool and the merge, as specification functions
  // ---------------------------------------------------------------------

  /** The record's move names with every `"Other"` dropped, order kept. */
  function ValidMoves(ms: seq<string>): (r: seq<string>)
    ensures forall m :: m in r <==> m in ms && m != OTHER
    ensures Subsequence(r, ms)
    ensures forall m :: multiset(r)[m] == (if m == OTHER then 0 else multiset(ms)[m])
    ensures |r| <= |ms|
  {
    if ms == [] then []
    else
      var rest := ValidMoves(ms[1..]);
      assert ms == [ms[0]] + ms[1..];
      if ms[0] != OTHER then
        assert ([ms[0]] + rest)[1..] == rest;
        [ms[0]] + rest
      else rest
  }

  /** The pool a record contributes: its first TOP_N_MOVES_POOL valid moves. */
  function MovePool(ms: seq<string>): (r: seq<string>)
    ensures |r| == Min(TOP_N_MOVES_POOL, |ValidMoves(ms)|)
    ensures r == ValidMoves(ms)[..|r|]
    ensures forall m :: m in r ==> m in ms && m != OTHER
  {
    var valid := ValidMoves(ms);
    valid[..Min(TOP_N_MOVES_POOL, |valid|)]
  }

  /** The records a file contributes: its first TOP_N_POKEMON, in order. */
  function Top(recs: seq<RawRecord>): (r: seq<RawRecord>)
    ensures |r| == Min(TOP_N_POKEMON, |recs|)
    ensures |r| <= TOP_N_POKEMON && |r| <= |recs| && r == recs[..|r|]
  {
    recs[..Min(TOP_N_POKEMON, |recs|)]
  }

  /** No element of `xs` occurs twice. */
  predicate NoRepeats(xs: seq<string>)
  {
    forall i, j :: 0 <= i < j < |xs| ==> xs[i] != xs[j]
  }

  /** A list rebuilt from a set: every element once (in first-occurrence order; see README). */
  function Distinct(xs: seq<string>): (r: seq<string>)
    ensures forall x :: x in r <==> x in xs
    ensures NoRepeats(r)
  {
    if xs == [] then []
    else
      var p := Distinct(xs[..|xs| - 1]);
      var x := xs[|xs| - 1];
      assert forall y :: y in xs <==> y in xs[..|xs| - 1] || y == x by {
        assert xs == xs[..|xs| - 1] + [x];
      }
      if x in p then p else p + [x]
  }

  /** One step of the loop over a file's records: record `rec` at 1-based position `rank`. */
  function MergeRecord(db: UsageDb, source: string, rank: nat, rec: RawRecord): UsageDb
  {
    if rec.name in db then
      db[rec.name := db[rec.name].(moves := Distinct(db[rec.name].moves + MovePool(rec.moves)))]
    else
      db[rec.name := UsageRecord(MovePool(rec.moves), source, rank)]
  }

  /**
   * One record merged: its name is added, no other entry changes, the moves
   * are the old ones together with the record's pool, each once when the
   * entry was already present, and an entry already present keeps its source
   * and rank while a new one takes the given ones.
   */
  lemma MergeRecordEffect(db: UsageDb, source: string, rank: nat, rec: RawRecord)
    ensures MergeRecord(db, source, rank, rec).Keys == db.Keys + {rec.name}
    ensures forall n :: n in db && n != rec.name ==> MergeRecord(db, source, rank, rec)[n] == db[n]
    ensures forall m :: m in MergeRecord(db, source, rank, rec)[rec.name].moves <==>
      (rec.name in db && m in db[rec.name].moves) || m in MovePool(rec.moves)
    ensures rec.name in db ==> NoRepeats(MergeRecord(db, source, rank, rec)[rec.name].moves)
    ensures rec.name in db ==>
      && MergeRecord(db, source, rank, rec)[rec.name].source == db[rec.name].source
      && MergeRecord(db, source, rank, rec)[rec.name].rank == db[rec.name].rank
    ensures rec.name !in db ==> MergeRecord(db, source, rank, rec)[rec.name] == UsageRecord(MovePool(rec.moves), source, rank)
  {
  }

  /** The loop over one file's top list, `recs` being its first records in order. */
  function MergeRecords(db: UsageDb, source: string, recs: seq<RawRecord>): UsageDb
  {
    if recs == [] then db
    else MergeRecord(MergeRecords(db, source, recs[..|recs| - 1]), source, |recs|, recs[|recs| - 1])
  }

  /** One file: skipped when it could not be read or parsed. */
  function MergeFile(db: UsageDb, f: DataFile): UsageDb
  {
    match f.records
    case None => db
    case Some(recs) => MergeRecords(db, SourceLabel(f.fileName), Top(recs))
  }

  /** The loop over the files, in the order given. */
  function MergeFiles(db: UsageDb, fs: seq<DataFile>): UsageDb
  {
    if fs == [] then db else MergeFile(MergeFiles(db, fs[..|fs| - 1]), fs[|fs| - 1])
  }

  /** The files in the order `load_vgc_data` processes them. */
  function ProcessingOrder(listing: seq<DataFile>): seq<DataFile>
  {
    SortDescending(JsonFiles(listing))
  }

  /** What `load_vgc_data` returns; `None` stands for a missing or unlistable folder. */
  function LoadSpec(listing: Option<seq<DataFile>>): UsageDb
  {
    match listing
    case None => map[]
    case Some(fs) => MergeFiles(map[], ProcessingOrder(fs))
  }

  // ---------------------------------------------------------------------
  // The merge loop itself
  // ---------------------------------------------------------------------

  /** One more record of a file's top list is one more `MergeRecord` step. */
  lemma MergeRecordsStep(db: UsageDb, source: string, recs: seq<RawRecord>, j: nat)
    requires j < |recs|
    ensures MergeRecords(db, source, recs[..j + 1]) == MergeRecord(MergeRecords(db, source, recs[..j]), source, j + 1, recs[j])
  {
    assert recs[..j + 1][..j] == recs[..j];
  }

  /** One more file is one more `MergeFile` step. */
  lemma MergeFilesStep(fs: seq<DataFile>, i: nat)
    requires i < |fs|
    ensures MergeFiles(map[], fs[..i + 1]) == MergeFile(MergeFiles(map[], fs[..i]), fs[i])
  {
    assert fs[..i + 1][..i] == fs[..i];
  }

  /** The loop over one file's top list, merging each record into `db`. */
  method MergeTopList(db0: UsageDb, source: string, top: seq<RawRecord>) returns (db: UsageDb)
    ensures db == MergeRecords(db0, source, top)
  {
    db := db0;
    var j := 0;
    while j < |top|
      invariant 0 <= j <= |top|
      invariant db == MergeRecords(db0, source, top[..j])
    {
      var pm := top[j];
      var currentRank := j + 1;
      var newMoves := MovePool(pm.moves);
      MergeRecordsStep(db0, source, top, j);
      if pm.name in db {
        db := db[pm.name := db[pm.name].(moves := Distinct(db[pm.name].moves + newMoves))];
      } else {
        db := db[pm.name := UsageRecord(newMoves, source, currentRank)];
      }
      j := j + 1;
    }
    assert top[..j] == top;
  }

  /** `load_vgc_data` after the directory has been listed and each file parsed. */
  method LoadVgcData(listing: Option<seq<DataFile>>) returns (db: UsageDb)
    ensures db == LoadSpec(listing)
    ensures forall n :: n in db ==> 1 <= db[n].rank <= TOP_N_POKEMON
  {
    db := map[];
    if listing.None? {
      return;
    }
    var files := ProcessingOrder(listing.value);
    var i := 0;
    while i < |files|
      invariant 0 <= i <= |files|
      invariant db == MergeFiles(map[], files[..i])
    {
      var f := files[i];
      if f.records.Some? {
        var sourceName := SourceLabel(f.fileName);
        db := MergeTopList(db, sourceName, Top(f.records.value));
      }
      MergeFilesStep(files, i);
      i := i + 1;
    }
    assert files[..i] == files;
    MergeRanksInRange(files);
  }

  // ---------------------------------------------------------------------
  // What the merge guarantees
  // ---------------------------------------------------------------------

  /** Record `j` of the top list of file `f` is named `n`. */
  predicate ListsAt(f: DataFile, j: int, n: string)
  {
    f.records.Some? && 0 <= j < |Top(f.records.value)| && Top(f.records.value)[j].name == n
  }

  /** Record `j` of the top list of `f` is named `n` and has move `m` in its pool. */
  predicate SuppliesAt(f: DataFile, j: int, n: string, m: string)
  {
    ListsAt(f, j, n) && m in MovePool(Top(f.records.value)[j].moves)
  }

  /** File `f` lists `n` in its top list, first at position `j`. */
  predicate FirstListsAt(f: DataFile, j: int, n: string)
  {
    ListsAt(f, j, n) && forall j' :: 0 <= j' < j ==> !ListsAt(f, j', n)
  }

  lemma {:induction false} MergeRecordsDomain(db: UsageDb, source: string, recs: seq<RawRecord>, n: string)
    ensures n in MergeRecords(db, source, recs) <==> n in db || exists j :: 0 <= j < |recs| && recs[j].name == n
  {
    if recs != [] {
      var init := recs[..|recs| - 1];
      MergeRecordsDomain(db, source, init, n);
      assert forall j :: 0 <= j < |init| ==> init[j] == recs[j];
    }
  }

  lemma {:induction false} MergeRecordsMoves(db: UsageDb, source: string, recs: seq<RawRecord>, n: string, m: string)
    requires n in MergeRecords(db, source, recs)
    ensures m in MergeRecords(db, source, recs)[n].moves <==>
      (n in db && m in db[n].moves) ||
      exists j :: 0 <= j < |recs| && recs[j].name == n && m in MovePool(recs[j].moves)
  {
    if recs != [] {
      var init := recs[..|recs| - 1];
      var last := recs[|recs| - 1];
      var mid := MergeRecords(db, source, init);
      assert forall j :: 0 <= j < |init| ==> init[j] == recs[j];
      if last.name == n {
        if n in mid {
          MergeRecordsMoves(db, source, init, n, m);
        } else {
          MergeRecordsDomain(db, source, init, n);
        }
      } else {
        MergeRecordsMoves(db, source, init, n, m);
      }
    }
  }

  /** A record that does not name `n` leaves its entry as it was. */
  lemma {:induction false} MergeRecordsUntouched(db: UsageDb, source: string, recs: seq<RawRecord>, n: string)
    requires n in db
    requires forall j :: 0 <= j < |recs| ==> recs[j].name != n
    ensures n in MergeRecords(db, source, recs) && MergeRecords(db, source, recs)[n] == db[n]
  {
    if recs != [] {
      var init := recs[..|recs| - 1];
      assert forall j :: 0 <= j < |init| ==> init[j] == recs[j];
      MergeRecordsUntouched(db, source, init, n);
      MergeRecordEffect(MergeRecords(db, source, init), source, |recs|, recs[|recs| - 1]);
    }
  }

  /**
   * A Pokémon merged into an existing entry ends with each of its moves once:
   * record `j` names `n`, and `n` was in `db` or an earlier record named it.
   */
  lemma {:induction false} MergeRecordsNoRepeats(db: UsageDb, source: string, recs: seq<RawRecord>, n: string, j: nat)
    requires j < |recs| && recs[j].name == n
    requires n in db || exists i :: 0 <= i < j && recs[i].name == n
    ensures n in MergeRecords(db, source, recs)
    ensures NoRepeats(MergeRecords(db, source, recs)[n].moves)
  {
    var init := recs[..|recs| - 1];
    var last := recs[|recs| - 1];
    var mid := MergeRecords(db, source, init);
    assert forall i :: 0 <= i < |init| ==> init[i] == recs[i];
    if j < |init| {
      MergeRecordsNoRepeats(db, source, init, n, j);
    } else {
      MergeRecordsDomain(db, source, init, n);
    }
    MergeRecordEffect(mid, source, |recs|, last);
  }

  lemma {:induction false} MergeRecordsKeepsOrigin(db: UsageDb, source: string, recs: seq<RawRecord>, n: string)
    requires n in db
    ensures n in MergeRecords(db, source, recs)
    ensures MergeRecords(db, source, recs)[n].source == db[n].source
    ensures MergeRecords(db, source, recs)[n].rank == db[n].rank
  {
    if recs != [] {
      MergeRecordsKeepsOrigin(db, source, recs[..|recs| - 1], n);
    }
  }

  lemma {:induction false} MergeRecordsOrigin(db: UsageDb, source: string, recs: seq<RawRecord>, n: string, j: nat)
    requires n !in db && j < |recs| && recs[j].name == n
    requires forall j' :: 0 <= j' < j ==> recs[j'].name != n
    ensures n in MergeRecords(db, source, recs)
    ensures MergeRecords(db, source, recs)[n].source == source
    ensures MergeRecords(db, source, recs)[n].rank == j + 1
  {
    var init := recs[..|recs| - 1];
    var mid := MergeRecords(db, source, init);
    if j < |init| {
      MergeRecordsOrigin(db, source, init, n, j);
    } else {
      MergeRecordsDomain(db, source, init, n);
      assert n !in mid;
    }
  }

  lemma {:induction false} MergeRecordsRanks(db: UsageDb, source: string, recs: seq<RawRecord>)
    requires |recs| <= TOP_N_POKEMON
    requires forall n :: n in db ==> 1 <= db[n].rank <= TOP_N_POKEMON
    ensures forall n :: n in MergeRecords(db, source, recs) ==> 1 <= MergeRecords(db, source, recs)[n].rank <= TOP_N_POKEMON
  {
    if recs != [] {
      MergeRecordsRanks(db, source, recs[..|recs| - 1]);
    }
  }

  lemma {:induction false} MergeFilesRanks(db: UsageDb, fs: seq<DataFile>)
    requires forall n :: n in db ==> 1 <= db[n].rank <= TOP_N_POKEMON
    ensures forall n :: n in MergeFiles(db, fs) ==> 1 <= MergeFiles(db, fs)[n].rank <= TOP_N_POKEMON
  {
    if fs != [] {
      var mid := MergeFiles(db, fs[..|fs| - 1]);
      MergeFilesRanks(db, fs[..|fs| - 1]);
      var f := fs[|fs| - 1];
      if f.records.Some? {
        MergeRecordsRanks(mid, SourceLabel(f.fileName), Top(f.records.value));
      }
    }
  }

  /** Every merged rank is a 1-based position within a top-200 list. */
  lemma MergeRanksInRange(fs: seq<DataFile>)
    ensures forall n :: n in MergeFiles(map[], fs) ==> 1 <= MergeFiles(map[], fs)[n].rank <= TOP_N_POKEMON
  {
    MergeFilesRanks(map[], fs);
  }

  /** A name is merged exactly when some readable file lists it among its top records. */
  lemma {:induction false} MergeFilesDomain(fs: seq<DataFile>, n: string)
    ensures n in MergeFiles(map[], fs) <==> exists k, j :: 0 <= k < |fs| && ListsAt(fs[k], j, n)
  {
    if fs != [] {
      var init := fs[..|fs| - 1];
      var f := fs[|fs| - 1];
      MergeFilesDomain(init, n);
      assert forall k :: 0 <= k < |init| ==> init[k] == fs[k];
      if f.records.Some? {
        var top := Top(f.records.value);
        MergeRecordsDomain(MergeFiles(map[], init), SourceLabel(f.fileName), top, n);
        if exists j :: 0 <= j < |top| && top[j].name == n {
          var j :| 0 <= j < |top| && top[j].name == n;
          assert ListsAt(fs[|fs| - 1], j, n);
        }
      }
    }
  }

  /**
   * A merged Pokémon's moves are exactly the union of the move pools (first
   * 20 non-"Other" moves) of every top-list record of that name in every
   * readable file.
   */
  lemma {:induction false} MergeFilesMoves(fs: seq<DataFile>, n: string, m: string)
    requires n in MergeFiles(map[], fs)
    ensures m in MergeFiles(map[], fs)[n].moves <==> exists k, j :: 0 <= k < |fs| && SuppliesAt(fs[k], j, n, m)
  {
    var init := fs[..|fs| - 1];
    var f := fs[|fs| - 1];
    var mid := MergeFiles(map[], init);
    assert forall k :: 0 <= k < |init| ==> init[k] == fs[k];
    if f.records.None? {
      MergeFilesMoves(init, n, m);
    } else {
      var top := Top(f.records.value);
      MergeRecordsMoves(mid, SourceLabel(f.fileName), top, n, m);
      if n in mid {
        MergeFilesMoves(init, n, m);
      } else {
        MergeFilesDomain(init, n);
        assert !exists k, j :: 0 <= k < |init| && ListsAt(init[k], j, n);
      }
      if exists j :: 0 <= j < |top| && top[j].name == n && m in MovePool(top[j].moves) {
        var j :| 0 <= j < |top| && top[j].name == n && m in MovePool(top[j].moves);
        assert SuppliesAt(fs[|fs| - 1], j, n, m);
      }
      if exists j :: SuppliesAt(f, j, n, m) {
        var j :| SuppliesAt(f, j, n, m);
        assert 0 <= j < |top| && top[j].name == n && m in MovePool(top[j].moves);
      }
    }
  }

  /**
   * A Pokémon listed twice (record `j1` of file `k1`, then record `j2` of file
   * `k2`) ends with each of its moves once.
   */
  lemma {:induction false} MergeFilesNoRepeats(fs: seq<DataFile>, n: string, k1: nat, j1: nat, k2: nat, j2: nat)
    requires k1 <= k2 < |fs| && (k1 < k2 || j1 < j2)
    requires ListsAt(fs[k1], j1, n) && ListsAt(fs[k2], j2, n)
    ensures n in MergeFiles(map[], fs)
    ensures NoRepeats(MergeFiles(map[], fs)[n].moves)
  {
    var init := fs[..|fs| - 1];
    var f := fs[|fs| - 1];
    var mid := MergeFiles(map[], init);
    assert forall k :: 0 <= k < |init| ==> init[k] == fs[k];
    if k2 < |init| {
      MergeFilesNoRepeats(init, n, k1, j1, k2, j2);
      if f.records.Some? {
        var top := Top(f.records.value);
        if exists j :: 0 <= j < |top| && top[j].name == n {
          var j :| 0 <= j < |top| && top[j].name == n;
          MergeRecordsNoRepeats(mid, SourceLabel(f.fileName), top, n, j);
        } else {
          MergeRecordsUntouched(mid, SourceLabel(f.fileName), top, n);
        }
      }
    } else {
      var top := Top(f.records.value);
      if k1 < k2 {
        MergeFilesDomain(init, n);
        assert ListsAt(init[k1], j1, n);
      } else {
        assert top[j1].name == n;
      }
      MergeRecordsNoRepeats(mid, SourceLabel(f.fileName), top, n, j2);
    }
  }

  lemma {:induction false} MergeFilesKeepsOrigin(db: UsageDb, fs: seq<DataFile>, n: string)
    requires n in db
    ensures n in MergeFiles(db, fs)
    ensures MergeFiles(db, fs)[n].source == db[n].source && MergeFiles(db, fs)[n].rank == db[n].rank
  {
    if fs != [] {
      var mid := MergeFiles(db, fs[..|fs| - 1]);
      MergeFilesKeepsOrigin(db, fs[..|fs| - 1], n);
      var f := fs[|fs| - 1];
      if f.records.Some? {
        MergeRecordsKeepsOrigin(mid, SourceLabel(f.fileName), Top(f.records.value), n);
      }
    }
  }

  /**
   * Source and rank come from the FIRST processed file that lists the name,
   * and the rank is the position (from 1) of its first record in that file;
   * later files only add moves.
   */
  lemma {:induction false} MergeFilesOrigin(fs: seq<DataFile>, n: string, k: nat, j: nat)
    requires k < |fs| && FirstListsAt(fs[k], j, n)
    requires forall k', j' :: 0 <= k' < k ==> !ListsAt(fs[k'], j', n)
    ensures n in MergeFiles(map[], fs)
    ensures MergeFiles(map[], fs)[n].source == SourceLabel(fs[k].fileName)
    ensures MergeFiles(map[], fs)[n].rank == j + 1
  {
    var init := fs[..k];
    var db := MergeFiles(map[], init);
    assert forall k' :: 0 <= k' < |init| ==> init[k'] == fs[k'];
    MergeFilesDomain(init, n);
    assert n !in db;
    var f := fs[k];
    var top := Top(f.records.value);
    assert forall j' :: 0 <= j' < j ==> top[j'].name != n by {
      forall j' | 0 <= j' < j ensures top[j'].name != n {
        assert !ListsAt(f, j', n);
      }
    }
    MergeRecordsOrigin(db, SourceLabel(f.fileName), top, n, j);
    var afterK := MergeFiles(map[], fs[..k + 1]);
    assert fs[..k + 1][..k] == init;
    assert afterK == MergeFile(db, f);
    MergeFilesSplit(fs, k + 1);
    MergeFilesKeepsOrigin(afterK, fs[k + 1..], n);
  }

  /** Merging a list of files is merging its prefix, then its suffix. */
  lemma {:induction false} MergeFilesSplit(fs: seq<DataFile>, k: nat)
    requires k <= |fs|
    ensures MergeFiles(map[], fs) == MergeFiles(MergeFiles(map[], fs[..k]), fs[k..])
    decreases |fs| - k
  {
    if k < |fs| {
      MergeFilesSplit(fs, k + 1);
      MergeFilesAppend(MergeFiles(map[], fs[..k]), fs[k..]);
      assert fs[..k + 1] == fs[..k] + [fs[k]];
      assert fs[..k + 1][..k] == fs[..k];
      assert fs[k..] == [fs[k]] + fs[k + 1..];
    } else {
      assert fs[..k] == fs;
    }
  }

  /** Merging `[f] + rest` from `db` is merging `rest` from `MergeFile(db, f)`. */
  lemma {:induction false} MergeFilesAppend(db: UsageDb, fs: seq<DataFile>)
    requires fs != []
    ensures MergeFiles(db, fs) == MergeFiles(MergeFile(db, fs[0]), fs[1..])
  {
    if |fs| > 1 {
      var init := fs[..|fs| - 1];
      MergeFilesAppend(db, init);
      assert init[1..] == fs[1..][..|fs[1..]| - 1];
    }
  }
}
