/**
 * The ten-slot leaderboard.  A new score is sorted in from the bottom: each
 * entry it beats moves down a slot, the bottom entry falls off, and the new
 * entry lands just below the lowest entry it does not beat.  Slots are read
 * from, and written to, the persistent key-value store under per-slot keys.
 */
module Highscores {

  const NumScoresToKeep: nat := 10

  const HighscorePrefix: string := "HS_"
  const PlayerNamePrefix: string := "HS_PLAYER_"
  const BlankPlayerSlot: string := "---"
  const IndexSuffix: string := "_SCORE_INDEX"

  datatype PlayerScore = PlayerScore(score: int, playerName: string, isNewHighscore: bool)

  /** A slot as the array allocates it; C#'s null name is modelled as the empty string. */
  const DefaultSlot: PlayerScore := PlayerScore(0, "", false)

  /** The manager's fields: the pending name and score, and the slots. */
  datatype Manager = Manager(inputName: string, newHighscore: int, pairs: seq<PlayerScore>)

  /** A fresh manager: ten default slots. */
  function Initial(): (m: Manager)
    ensures |m.pairs| == NumScoresToKeep
    ensures forall i :: 0 <= i < |m.pairs| ==> m.pairs[i] == DefaultSlot
  {
    Manager("", 0, seq(NumScoresToKeep, _ => DefaultSlot))
  }

  /** Highest score first; equal scores in any order. */
  predicate Sorted(p: seq<PlayerScore>) {
    forall i, j :: 0 <= i < j < |p| ==> p[i].score >= p[j].score
  }

  /**
   * Where the downward scan stops: one below the lowest slot whose score is
   * at least `s`, or the top when no slot is.  Every slot from there down
   * holds a smaller score, so ties keep the older entries above.
   */
  function InsertionIndex(p: seq<PlayerScore>, s: int): (k: nat)
    decreases |p|
    ensures k <= |p|
    ensures forall i :: k <= i < |p| ==> p[i].score < s
    ensures k > 0 ==> p[k - 1].score >= s
    ensures Sorted(p) ==> forall i :: 0 <= i < k ==> p[i].score >= s
  {
    if |p| == 0 then 0
    else if p[|p| - 1].score >= s then |p|
    else InsertionIndex(p[..|p| - 1], s)
  }

  /** The two facts about `InsertionIndex` pin it down. */
  lemma InsertionIndexUnique(p: seq<PlayerScore>, s: int, k: nat)
    requires k <= |p|
    requires forall i :: k <= i < |p| ==> p[i].score < s
    requires k > 0 ==> p[k - 1].score >= s
    ensures k == InsertionIndex(p, s)
  {
  }

  /** Inserting at the insertion index and shifting the rest down keeps a sorted board sorted. */
  lemma InsertionKeepsOrder(p: seq<PlayerScore>, q: seq<PlayerScore>, s: int)
    requires Sorted(p) && |q| == |p|
    requires InsertionIndex(p, s) < |p|
    requires forall i :: 0 <= i < InsertionIndex(p, s) ==> q[i] == p[i]
    requires q[InsertionIndex(p, s)].score == s
    requires forall i :: InsertionIndex(p, s) < i < |p| ==> q[i].score == p[i - 1].score
    ensures Sorted(q)
  {
  }

  /**
   * The loop of `SortNewScoreToHighscores`: walking up from the bottom, every
   * entry the score beats is copied one slot down with its flag cleared.  It
   * stops at the insertion index, whose slot still holds its old entry.
   */
  method ShiftDown(p: seq<PlayerScore>, newScore: int) returns (shifted: seq<PlayerScore>, k: nat)
    requires |p| == NumScoresToKeep && p[NumScoresToKeep - 1].score < newScore
    ensures k == InsertionIndex(p, newScore) && k < NumScoresToKeep
    ensures |shifted| == NumScoresToKeep
    ensures forall i :: 0 <= i <= k ==> shifted[i] == p[i]
    ensures forall i :: k < i < NumScoresToKeep ==> shifted[i] == p[i - 1].(isNewHighscore := false)
  {
    var a := new PlayerScore[NumScoresToKeep](i requires 0 <= i < NumScoresToKeep => p[i]);
    var j: int := NumScoresToKeep - 1;
    while j >= 0 && a[j].score < newScore
      invariant -1 <= j < NumScoresToKeep
      invariant forall i :: 0 <= i < NumScoresToKeep && i <= j + 1 ==> a[i] == p[i]
      invariant forall i :: j + 2 <= i < NumScoresToKeep ==> a[i] == p[i - 1].(isNewHighscore := false)
      invariant forall i :: j + 1 <= i < NumScoresToKeep ==> p[i].score < newScore
      decreases j
    {
      if j < NumScoresToKeep - 1 {
        a[j + 1] := PlayerScore(a[j].score, a[j].playerName, false);
      }
      j := j - 1;
    }
    k := j + 1;
    InsertionIndexUnique(p, newScore, k);
    shifted := a[..];
  }

  /**
   * The insertion of `SortNewScoreToHighscores`, for a score that beats the
   * bottom slot.  Slots above the insertion index stay, the entry written
   * there carries the pending name and `newHighscore` (the field, not the
   * argument) and is flagged new, and the entries below move down a slot with
   * their flags cleared; the old bottom entry is gone.
   */
  method InsertIntoBoard(m: Manager, newScore: int) returns (r: Manager)
    requires |m.pairs| == NumScoresToKeep
    requires m.pairs[NumScoresToKeep - 1].score < newScore
    ensures r.inputName == m.inputName && r.newHighscore == m.newHighscore
    ensures |r.pairs| == NumScoresToKeep
    ensures
      var k := InsertionIndex(m.pairs, newScore);
      && k < NumScoresToKeep
      && (forall i :: 0 <= i < k ==> r.pairs[i] == m.pairs[i])
      && r.pairs[k] == PlayerScore(m.newHighscore, m.inputName, true)
      && (forall i :: k < i < NumScoresToKeep ==> r.pairs[i] == m.pairs[i - 1].(isNewHighscore := false))
    ensures Sorted(m.pairs) && m.newHighscore == newScore ==> Sorted(r.pairs)
  {
    var shifted, k := ShiftDown(m.pairs, newScore);
    r := m.(pairs := shifted[k := PlayerScore(m.newHighscore, m.inputName, true)]);
    if Sorted(m.pairs) && m.newHighscore == newScore {
      InsertionKeepsOrder(m.pairs, r.pairs, newScore);
    }
  }

  /**
   * `SortNewScoreToHighscores`.  Nothing happens unless `newScore` beats the
   * bottom slot; otherwise the score is inserted and the whole board is
   * written to the store.
   */
  method SortNewScoreToHighscores(m: Manager, newScore: int, prefs: Prefs) returns (r: Manager, store: Prefs, saved: bool)
    requires |m.pairs| == NumScoresToKeep
    ensures r.inputName == m.inputName && r.newHighscore == m.newHighscore
    ensures |r.pairs| == NumScoresToKeep
    ensures saved <==> m.pairs[NumScoresToKeep - 1].score < newScore
    ensures !saved ==> r == m && store == prefs
    ensures saved ==> store == SaveHighScorePlayerPrefs(prefs, r.pairs)
    ensures saved ==>
      var k := InsertionIndex(m.pairs, newScore);
      && k < NumScoresToKeep
      && (forall i :: 0 <= i < k ==> r.pairs[i] == m.pairs[i])
      && r.pairs[k] == PlayerScore(m.newHighscore, m.inputName, true)
      && (forall i :: k < i < NumScoresToKeep ==> r.pairs[i] == m.pairs[i - 1].(isNewHighscore := false))
    ensures Sorted(m.pairs) && m.newHighscore == newScore ==> Sorted(r.pairs)
  {
    if m.pairs[NumScoresToKeep - 1].score < newScore {
      r := InsertIntoBoard(m, newScore);
      store := SaveHighScorePlayerPrefs(prefs, r.pairs);
      saved := true;
    } else {
      r, store, saved := m, prefs, false;
    }
  }

  /**
   * `InputNewPlayerHighscore`: record the name and score, then sort them in.
   * Only along this path is the score that is compared also the score that
   * is stored, so the board stays sorted.
   */
  method InputNewPlayerHighscore(m: Manager, newPlayerName: string, newScore: int, prefs: Prefs)
    returns (r: Manager, store: Prefs, saved: bool)
    requires |m.pairs| == NumScoresToKeep
    ensures r.inputName == newPlayerName && r.newHighscore == newScore
    ensures |r.pairs| == NumScoresToKeep
    ensures saved ==> store == SaveHighScorePlayerPrefs(prefs, r.pairs)
    ensures !saved ==> store == prefs
    ensures saved <==> m.pairs[NumScoresToKeep - 1].score < newScore
    ensures !saved ==> r.pairs == m.pairs
    ensures saved ==> r.pairs[InsertionIndex(m.pairs, newScore)] == PlayerScore(newScore, newPlayerName, true)
    ensures Sorted(m.pairs) ==> Sorted(r.pairs)
  {
    r, store, saved := SortNewScoreToHighscores(m.(inputName := newPlayerName, newHighscore := newScore), newScore, prefs);
  }

  /** The flag-clearing half of `DisplayHighscores`; handing each slot to the panel is left to the UI. */
  function DisplayHighscores(m: Manager): (r: Manager)
    ensures r.inputName == m.inputName && r.newHighscore == m.newHighscore
    ensures |r.pairs| == |m.pairs|
    ensures forall i :: 0 <= i < |r.pairs| ==>
      && !r.pairs[i].isNewHighscore
      && r.pairs[i].score == m.pairs[i].score
      && r.pairs[i].playerName == m.pairs[i].playerName
  {
    m.(pairs := seq(|m.pairs|, i requires 0 <= i < |m.pairs| => m.pairs[i].(isNewHighscore := false)))
  }

  /** Displaying twice is displaying once, and the order of the board is untouched. */
  lemma DisplayIdempotent(m: Manager)
    ensures DisplayHighscores(DisplayHighscores(m)) == DisplayHighscores(m)
    ensures Sorted(m.pairs) ==> Sorted(DisplayHighscores(m).pairs)
  {
  }

  /** The persistent store, one map per value type; a missing key reads as the type's default. */
  datatype Prefs = Prefs(strings: map<string, string>, ints: map<string, int>)

  predicate HasKey(p: Prefs, key: string) {
    key in p.strings || key in p.ints
  }

  function GetString(p: Prefs, key: string): string {
    if key in p.strings then p.strings[key] else ""
  }

  function GetInt(p: Prefs, key: string): int {
    if key in p.ints then p.ints[key] else 0
  }

  /** Unity's store keeps one value per key, so writing a key under one type drops it from the other. */
  function SetString(p: Prefs, key: string, value: string): (r: Prefs)
    ensures HasKey(r, key) && GetString(r, key) == value
    ensures forall k :: k != key ==>
      (HasKey(r, k) <==> HasKey(p, k)) && GetString(r, k) == GetString(p, k) && GetInt(r, k) == GetInt(p, k)
  {
    Prefs(p.strings[key := value], p.ints - {key})
  }

  function SetInt(p: Prefs, key: string, value: int): (r: Prefs)
    ensures HasKey(r, key) && GetInt(r, key) == value
    ensures forall k :: k != key ==>
      (HasKey(r, k) <==> HasKey(p, k)) && GetString(r, k) == GetString(p, k) && GetInt(r, k) == GetInt(p, k)
  {
    Prefs(p.strings - {key}, p.ints[key := value])
  }

  /** `i.ToString()` for a slot index. */
  function DigitString(i: nat): (r: string)
    requires i < 10
    ensures |r| == 1 && '0' <= r[0] <= '9'
  {
    [(('0' as int) + i) as char]
  }

  function PlayerKey(i: nat): string
    requires i < NumScoresToKeep
  {
    PlayerNamePrefix + DigitString(i) + IndexSuffix
  }

  function ScoreKey(i: nat): string
    requires i < NumScoresToKeep
  {
    HighscorePrefix + DigitString(i) + IndexSuffix
  }

  /** Every slot has its own two keys, and no name key is a score key. */
  lemma KeysDistinct(i: nat, j: nat)
    requires i < NumScoresToKeep && j < NumScoresToKeep
    ensures PlayerKey(i) != ScoreKey(j)
    ensures PlayerKey(i) == PlayerKey(j) ==> i == j
    ensures ScoreKey(i) == ScoreKey(j) ==> i == j
  {
    assert PlayerKey(i)[3] == 'P';
    assert '0' <= ScoreKey(j)[3] <= '9';
    assert PlayerKey(i)[10] == DigitString(i)[0];
    assert PlayerKey(j)[10] == DigitString(j)[0];
    assert ScoreKey(i)[3] == DigitString(i)[0];
    assert ScoreKey(j)[3] == DigitString(j)[0];
  }

  /** Slot `i` as loaded from the store: both keys present, or a blank entry. */
  function StoredSlot(p: Prefs, i: nat): (r: PlayerScore)
    requires i < NumScoresToKeep
    ensures !r.isNewHighscore
    ensures HasKey(p, PlayerKey(i)) && HasKey(p, ScoreKey(i)) ==>
      r == PlayerScore(GetInt(p, ScoreKey(i)), GetString(p, PlayerKey(i)), false)
    ensures !(HasKey(p, PlayerKey(i)) && HasKey(p, ScoreKey(i))) ==> r == PlayerScore(0, BlankPlayerSlot, false)
  {
    if HasKey(p, PlayerKey(i)) && HasKey(p, ScoreKey(i)) then
      PlayerScore(GetInt(p, ScoreKey(i)), GetString(p, PlayerKey(i)), false)
    else
      PlayerScore(0, BlankPlayerSlot, false)
  }

  /** The loop of `SaveHighScorePlayerPrefs` over slots 0 .. n-1: each slot's name, then its score. */
  function SaveSlots(p: Prefs, pairs: seq<PlayerScore>, n: nat): (r: Prefs)
    requires n <= |pairs| == NumScoresToKeep
    ensures forall i :: 0 <= i < n ==>
      && HasKey(r, PlayerKey(i)) && GetString(r, PlayerKey(i)) == pairs[i].playerName
      && HasKey(r, ScoreKey(i)) && GetInt(r, ScoreKey(i)) == pairs[i].score
  {
    if n == 0 then p
    else
      var before := SaveSlots(p, pairs, n - 1);
      var named := SetString(before, PlayerKey(n - 1), pairs[n - 1].playerName);
      var r := SetInt(named, ScoreKey(n - 1), pairs[n - 1].score);
      KeysDistinct(n - 1, n - 1);
      assert forall i :: 0 <= i < n - 1 ==>
        && HasKey(r, PlayerKey(i)) && GetString(r, PlayerKey(i)) == pairs[i].playerName
        && HasKey(r, ScoreKey(i)) && GetInt(r, ScoreKey(i)) == pairs[i].score
      by {
        forall i | 0 <= i < n - 1
          ensures HasKey(r, PlayerKey(i)) && GetString(r, PlayerKey(i)) == pairs[i].playerName
          ensures HasKey(r, ScoreKey(i)) && GetInt(r, ScoreKey(i)) == pairs[i].score
        {
          KeysDistinct(i, n - 1);
          KeysDistinct(n - 1, i);
        }
      }
      r
  }

  /** Whether `key` is one of the keys of slots 0 .. n-1. */
  predicate IsSlotKey(key: string, n: nat)
    requires n <= NumScoresToKeep
  {
    exists i :: 0 <= i < n && (key == PlayerKey(i) || key == ScoreKey(i))
  }

  /** Saving touches only the slots' own keys: every other key reads as before. */
  lemma {:induction false} SaveSlotsKeepsOtherKeys(p: Prefs, pairs: seq<PlayerScore>, n: nat, key: string)
    requires n <= |pairs| == NumScoresToKeep
    requires !IsSlotKey(key, n)
    ensures HasKey(SaveSlots(p, pairs, n), key) <==> HasKey(p, key)
    ensures GetString(SaveSlots(p, pairs, n), key) == GetString(p, key)
    ensures GetInt(SaveSlots(p, pairs, n), key) == GetInt(p, key)
  {
    if n > 0 {
      assert key != PlayerKey(n - 1) && key != ScoreKey(n - 1);
      assert !IsSlotKey(key, n - 1);
      SaveSlotsKeepsOtherKeys(p, pairs, n - 1, key);
    }
  }

  /** `SaveHighScorePlayerPrefs`: all ten slots written under their keys. */
  function SaveHighScorePlayerPrefs(p: Prefs, pairs: seq<PlayerScore>): (r: Prefs)
    requires |pairs| == NumScoresToKeep
    ensures forall i :: 0 <= i < NumScoresToKeep ==>
      && HasKey(r, PlayerKey(i)) && GetString(r, PlayerKey(i)) == pairs[i].playerName
      && HasKey(r, ScoreKey(i)) && GetInt(r, ScoreKey(i)) == pairs[i].score
  {
    SaveSlots(p, pairs, NumScoresToKeep)
  }

  /** Loading what was saved gives back every slot's name and score, with the new flag cleared. */
  lemma SaveThenLoad(p: Prefs, pairs: seq<PlayerScore>)
    requires |pairs| == NumScoresToKeep
    ensures forall i :: 0 <= i < NumScoresToKeep ==>
      StoredSlot(SaveHighScorePlayerPrefs(p, pairs), i) == pairs[i].(isNewHighscore := false)
  {
  }

  /**
   * `PopulateHighscorePairs`.  The loop stops at `NumScoresToKeep - 1`, so
   * only slots 0 to 8 are loaded and the bottom slot keeps what it had.
   */
  method PopulateHighscorePairs(m: Manager, prefs: Prefs) returns (r: Manager)
    requires |m.pairs| == NumScoresToKeep
    ensures r.inputName == m.inputName && r.newHighscore == m.newHighscore
    ensures |r.pairs| == NumScoresToKeep
    ensures forall i :: 0 <= i < NumScoresToKeep - 1 ==> r.pairs[i] == StoredSlot(prefs, i)
    ensures r.pairs[NumScoresToKeep - 1] == m.pairs[NumScoresToKeep - 1]
  {
    var pairs := m.pairs;
    var i := 0;
    while i < NumScoresToKeep - 1
      invariant 0 <= i <= NumScoresToKeep - 1
      invariant |pairs| == NumScoresToKeep
      invariant forall k :: 0 <= k < i ==> pairs[k] == StoredSlot(prefs, k)
      invariant forall k :: i <= k < NumScoresToKeep ==> pairs[k] == m.pairs[k]
    {
      pairs := pairs[i := StoredSlot(prefs, i)];
      i := i + 1;
    }
    r := m.(pairs := pairs);
  }
}
