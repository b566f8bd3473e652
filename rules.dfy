/**
 * The game's rules as functions on the tables: where a joining player is seated in the
 * turn order (src/handlers/JoinGame.ts), who acts next (src/handlers/ProgressQuestions.ts),
 * which card and answer are drawn (src/handlers/StartGame.ts, ProgressQuestions.ts) and how
 * a reveal is scored (src/handlers/RevealAnswer.ts).
 */
module Rules {
  import opened Options
  import opened Ordering
  import opened Tables

  // ---------------------------------------------------------------- cards and answers

  /** The cards the draws exclude: 8, 11 and 12. */
  const Reserved: set<int> := {8, 11, 12}

  /** The cards a draw may return, in key order. */
  function Eligible(cards: CardTable, exclude: set<int>): (r: seq<int>)
    ensures Increasing(r)
    ensures forall x :: x in r <==> x in cards && x !in Reserved && x !in exclude
  {
    SortedSet(set k | k in cards && k !in Reserved && k !in exclude)
  }

  /**
   * SELECT * FROM card WHERE ... ORDER BY RAND() LIMIT 1: one eligible card, pick standing for
   * the random order; None when no card is eligible. Start excludes only the reserved cards;
   * Progress also excludes the room's current card.
   */
  function DrawCard(cards: CardTable, exclude: set<int>, pick: nat): (r: Option<int>)
    ensures r.None? <==> forall k :: k in cards ==> k in Reserved || k in exclude
    ensures r.Some? ==> r.value in cards && r.value !in Reserved && r.value !in exclude
  {
    var e := Eligible(cards, exclude);
    if e == [] then None else Some(e[pick % |e|])
  }

  /** Every eligible card is drawn for some pick: the parameter hides no card from the model. */
  lemma DrawCardCoversEligible(cards: CardTable, exclude: set<int>, k: int)
    requires k in cards && k !in Reserved && k !in exclude
    ensures exists pick: nat :: DrawCard(cards, exclude, pick) == Some(k)
  {
    var e := Eligible(cards, exclude);
    assert k in e;
    var i := FindIndex(e, k);
    ModOfSmaller(i, |e|);
    assert DrawCard(cards, exclude, i) == Some(k);
  }

  /** Math.floor(Math.random() * n) + 1, pick standing for the random number. */
  function DrawAnswer(n: nat, pick: nat): (a: int)
    ensures n == 0 ==> a == 1
    ensures n > 0 ==> 1 <= a <= n
  {
    if n == 0 then 1 else pick % n + 1
  }

  /** Every answer 1..n is drawn for some pick. */
  lemma DrawAnswerCoversRange(n: nat, a: int)
    requires 1 <= a <= n
    ensures exists pick: nat :: DrawAnswer(n, pick) == a
  {
    ModOfSmaller(a - 1, n);
    assert DrawAnswer(n, a - 1) == a;
  }

  lemma ModOfSmaller(i: int, n: int)
    requires 0 <= i < n
    ensures i % n == i
  {
  }

  // ---------------------------------------------------------------- seating a joining player

  /** The turn indices held in a room. */
  function IndexSet(players: PlayerTable, code: string): set<int>
  {
    set k | k in players && players[k].roomCode == code :: players[k].index
  }

  /** No two players of the same room share a turn index. */
  predicate UniqueTurns(players: PlayerTable)
  {
    forall a, b :: (a in players && b in players && a != b &&
      players[a].roomCode == players[b].roomCode) ==> players[a].index != players[b].index
  }

  /** Every row of after was a row of before, in the same room at the same index. */
  predicate SameSeats(before: PlayerTable, after: PlayerTable)
  {
    after.Keys <= before.Keys &&
    forall k :: k in after ==> after[k].roomCode == before[k].roomCode && after[k].index == before[k].index
  }

  /** Updates that leave every seat alone (scores, choices, activity, deletions) keep turns unique. */
  lemma SameSeatsKeepTurns(before: PlayerTable, after: PlayerTable)
    requires UniqueTurns(before) && SameSeats(before, after)
    ensures UniqueTurns(after)
  {
  }

  /** Moving every index from on up by one keeps the room's indices distinct. */
  lemma ShiftUpKeepsTurns(players: PlayerTable, code: string, from: int)
    requires UniqueTurns(players)
    ensures UniqueTurns(ShiftUp(players, code, from))
  {
  }

  /** The set holds exactly 1..n. */
  ghost predicate IsRange(s: set<int>, n: int)
  {
    forall i :: i in s <==> 1 <= i <= n
  }

  /** The row INSERT INTO player creates: no choice, score 0, active (the columns' assumed defaults). */
  function NewRow(code: string, index: int, name: string, secret: string): PlayerRow
  {
    PlayerRow(code, index, name, secret, None, 0, true)
  }

  /**
   * UPDATE player SET player_index = player_index+1 WHERE player_index >= from AND
   * room_code = code.
   */
  function ShiftUp(players: PlayerTable, code: string, from: int): (r: PlayerTable)
    ensures r.Keys == players.Keys
    ensures forall k :: k in players && players[k].roomCode != code ==> r[k] == players[k]
    ensures forall k :: k in players ==> r[k] == players[k].(index := r[k].index)
  {
    map k | k in players ::
      if players[k].roomCode == code && players[k].index >= from then players[k].(index := players[k].index + 1)
      else players[k]
  }

  /** The index a joining player takes: after the last player when the pointer is 1, else the pointer's slot. */
  function JoinIndex(players: PlayerTable, code: string, pointer: int): int
  {
    if pointer == 1 then MaxIndex(players, code) + 1 else pointer
  }

  /** The room's pointer after a join: moved up by one when the newcomer took its slot. */
  function JoinPointer(pointer: int): int
  {
    if pointer == 1 then 1 else pointer + 1
  }

  /** The player table after a successful join of a player with this key. */
  function Admit(players: PlayerTable, code: string, pointer: int, key: int, name: string, secret: string): PlayerTable
  {
    var seated := if pointer == 1 then players else ShiftUp(players, code, pointer);
    seated[key := NewRow(code, JoinIndex(players, code, pointer), name, secret)]
  }

  /** A join keeps every row of other rooms, and changes only the turn index of the room's rows. */
  lemma AdmitFrame(players: PlayerTable, code: string, pointer: int, key: int, name: string, secret: string)
    requires key !in players
    ensures var r := Admit(players, code, pointer, key, name, secret);
      r.Keys == players.Keys + {key} &&
      r[key] == NewRow(code, JoinIndex(players, code, pointer), name, secret) &&
      (forall k :: k in players && players[k].roomCode != code ==> r[k] == players[k]) &&
      (forall k :: k in players ==> r[k] == players[k].(index := r[k].index)) &&
      (pointer == 1 ==> forall k :: k in players ==> r[k] == players[k])
  {
  }

  /** A join keeps every room's turn indices duplicate-free. */
  lemma AdmitKeepsTurnsUnique(players: PlayerTable, code: string, pointer: int, key: int, name: string, secret: string)
    requires key !in players
    requires UniqueTurns(players)
    ensures UniqueTurns(Admit(players, code, pointer, key, name, secret))
  {
    var r := Admit(players, code, pointer, key, name, secret);
    forall a, b | a in r && b in r && a != b && r[a].roomCode == r[b].roomCode
      ensures r[a].index != r[b].index
    {
      if a == key || b == key {
        var other := if a == key then b else a;
        assert other in players && r[other].roomCode == code;
        if pointer == 1 {
          assert players[other].index <= MaxIndex(players, code);
        }
      }
    }
  }

  /**
   * The player whose turn it is keeps it: whoever held the pointer's index now holds the
   * new pointer's index.
   */
  lemma AdmitKeepsActor(players: PlayerTable, code: string, pointer: int, key: int, name: string, secret: string, k: int)
    requires key !in players
    requires k in players && players[k].roomCode == code && players[k].index == pointer
    ensures Admit(players, code, pointer, key, name, secret)[k].index == JoinPointer(pointer)
  {
  }

  /** A join keeps the turn order among the players already in the room. */
  lemma AdmitKeepsOrder(players: PlayerTable, code: string, pointer: int, key: int, name: string, secret: string, a: int, b: int)
    requires key !in players
    requires a in players && b in players && players[a].roomCode == code && players[b].roomCode == code
    ensures var r := Admit(players, code, pointer, key, name, secret);
      players[a].index < players[b].index <==> r[a].index < r[b].index
  {
  }

  /**
   * Turn indices 1..n stay gapless: after a join the room holds exactly 1..n+1, whether the
   * newcomer is appended (pointer 1) or takes the pointer's slot (pointer in 2..n+1).
   */
  lemma AdmitKeepsIndicesContiguous(players: PlayerTable, code: string, pointer: int, key: int, name: string, secret: string, n: nat)
    requires key !in players
    requires IsRange(IndexSet(players, code), n)
    requires 1 <= pointer <= n + 1
    ensures IsRange(IndexSet(Admit(players, code, pointer, key, name, secret), code), n + 1)
  {
    var r := Admit(players, code, pointer, key, name, secret);
    if pointer == 1 {
      MaxIndexOfRange(players, code, n);
    }
    forall i | i in IndexSet(r, code) ensures 1 <= i <= n + 1 {
      var k :| k in r && r[k].roomCode == code && r[k].index == i;
      if k != key {
        assert players[k].index in IndexSet(players, code);
      }
    }
    forall i | 1 <= i <= n + 1 ensures i in IndexSet(r, code) {
      if i == JoinIndex(players, code, pointer) {
        assert r[key].index == i;
      } else if i < pointer || pointer == 1 {
        assert i in IndexSet(players, code);
        var k :| k in players && players[k].roomCode == code && players[k].index == i;
        assert r[k].index == i;
      } else {
        assert i - 1 in IndexSet(players, code);
        var k :| k in players && players[k].roomCode == code && players[k].index == i - 1;
        assert r[k].index == i;
      }
    }
  }

  lemma MaxIndexOfRange(players: PlayerTable, code: string, n: nat)
    requires IsRange(IndexSet(players, code), n)
    ensures MaxIndex(players, code) == n
  {
    var m := MaxIndex(players, code);
    assert n >= 1 ==> n in IndexSet(players, code);
    if RoomKeys(players, code) == {} {
      assert IndexSet(players, code) == {};
    } else {
      var k :| k in players && players[k].roomCode == code && players[k].index == m;
      assert m in IndexSet(players, code);
      var j :| j in players && players[j].roomCode == code && players[j].index == n;
    }
  }

  // ---------------------------------------------------------------- the next actor

  /** Array.prototype.findIndex for equality: the first position of x, or -1. */
  function FindIndex(s: seq<int>, x: int): (i: int)
    ensures -1 <= i < |s|
    ensures i >= 0 ==> s[i] == x && forall j :: 0 <= j < i ==> s[j] != x
    ensures i == -1 <==> x !in s
  {
    if s == [] then -1
    else if s[0] == x then 0
    else
      var i := FindIndex(s[1..], x);
      if i == -1 then -1 else i + 1
  }

  /**
   * The next actor: the index after the current one in the sorted list of active indices,
   * wrapping around; findIndex's -1 for a current index that is not active gives the first.
   */
  function NextActor(sorted: seq<int>, current: int): (next: int)
    requires sorted != []
    ensures next in sorted
  {
    sorted[(FindIndex(sorted, current) + 1) % |sorted|]
  }

  /** A current index that is not in the list hands the turn to the lowest active index. */
  lemma NextActorWhenAbsent(sorted: seq<int>, current: int)
    requires sorted != [] && current !in sorted
    ensures NextActor(sorted, current) == sorted[0]
  {
  }

  /**
   * For an active current index, the next actor is the smallest active index above it, or
   * the smallest active index when the current one is the largest.
   */
  lemma NextActorIsSuccessor(sorted: seq<int>, current: int)
    requires sorted != [] && Increasing(sorted) && current in sorted
    ensures (exists x :: x in sorted && x > current) ==>
      NextActor(sorted, current) > current &&
      forall x :: x in sorted && x > current ==> NextActor(sorted, current) <= x
    ensures (forall x :: x in sorted ==> x <= current) ==> NextActor(sorted, current) == sorted[0]
  {
    var i := FindIndex(sorted, current);
    if i + 1 < |sorted| {
      assert (i + 1) % |sorted| == i + 1;
      SuccessorInList(sorted, i);
      assert sorted[i + 1] in sorted;
    } else {
      assert (i + 1) % |sorted| == 0;
      LastIsLargest(sorted, i);
    }
  }

  lemma SuccessorInList(sorted: seq<int>, i: int)
    requires Increasing(sorted) && 0 <= i && i + 1 < |sorted|
    ensures sorted[i + 1] > sorted[i]
    ensures forall x :: x in sorted && x > sorted[i] ==> sorted[i + 1] <= x
  {
    forall x | x in sorted && x > sorted[i] ensures sorted[i + 1] <= x {
      var j :| 0 <= j < |sorted| && sorted[j] == x;
      assert forall t :: 0 <= t <= i ==> sorted[t] <= sorted[i];
      if j > i + 1 {
        assert sorted[i + 1] < sorted[j];
      }
    }
  }

  lemma LastIsLargest(sorted: seq<int>, i: int)
    requires Increasing(sorted) && i == |sorted| - 1 >= 0
    ensures forall x :: x in sorted ==> x <= sorted[i]
  {
    forall x | x in sorted ensures x <= sorted[i] {
      var j :| 0 <= j < |sorted| && sorted[j] == x;
      if j < i {
        assert sorted[j] < sorted[i];
      }
    }
  }

  /**
   * Where the rule differs from "the smallest active index above the pointer": with active
   * indices 1, 3, 5 and the pointer on 4 (its player gone inactive), the turn goes to 1, not 5.
   */
  lemma NextActorSkipsAheadToFirst()
    ensures NextActor([1, 3, 5], 4) == 1
  {
    assert FindIndex([1, 3, 5], 4) == -1;
  }

  /** The active turn indices sorted numerically, as Progress's sort((a, b) => a - b) orders them. */
  function Ascending(column: seq<int>): (r: seq<int>)
    ensures |r| == |column| && multiset(r) == multiset(column)
    ensures forall i, j :: 0 <= i < j < |r| ==> r[i] <= r[j]
  {
    var r := SortBy(column, (x: int) => x);
    assert SortedBy(r, (x: int) => x);
    r
  }

  /** When the indices are distinct, the sorted column is strictly increasing. */
  lemma AscendingDistinct(column: seq<int>)
    requires Distinct(column)
    ensures Increasing(Ascending(column))
  {
    PermutationKeepsDistinct(column, Ascending(column));
  }

  // ---------------------------------------------------------------- scoring a reveal

  /** The reduce that counts roster rows whose choice equals the correct answer. */
  function NumberCorrect(roster: seq<PlayerData>, correct: int): (n: nat)
    ensures n <= |roster|
  {
    if roster == [] then 0
    else (if roster[0].choice == Some(correct) then 1 else 0) + NumberCorrect(roster[1..], correct)
  }

  /** The keys of the roster rows whose choice is the correct answer. */
  function CorrectKeys(roster: seq<PlayerData>, correct: int): set<int>
  {
    set i | 0 <= i < |roster| && roster[i].choice == Some(correct) :: roster[i].key
  }

  /** The correct keys of a roster: its first row's key if that row is correct, and those of the rest. */
  lemma CorrectKeysCons(roster: seq<PlayerData>, correct: int)
    requires roster != []
    ensures CorrectKeys(roster, correct) ==
      (if roster[0].choice == Some(correct) then {roster[0].key} else {}) + CorrectKeys(roster[1..], correct)
  {
    var tail := roster[1..];
    forall x | x in CorrectKeys(roster, correct)
      ensures x in (if roster[0].choice == Some(correct) then {roster[0].key} else {}) + CorrectKeys(tail, correct)
    {
      var i :| 0 <= i < |roster| && roster[i].choice == Some(correct) && roster[i].key == x;
      if i > 0 { assert tail[i - 1] == roster[i]; }
    }
    forall x | x in CorrectKeys(tail, correct) ensures x in CorrectKeys(roster, correct) {
      var i :| 0 <= i < |tail| && tail[i].choice == Some(correct) && tail[i].key == x;
      assert roster[i + 1] == tail[i];
    }
  }

  /** With one row per key, the count is the number of players who chose the correct answer. */
  lemma {:induction false} NumberCorrectCountsKeys(roster: seq<PlayerData>, correct: int)
    requires forall i, j :: 0 <= i < j < |roster| ==> roster[i].key != roster[j].key
    ensures NumberCorrect(roster, correct) == |CorrectKeys(roster, correct)|
    decreases |roster|
  {
    if roster != [] {
      var tail := roster[1..];
      assert forall i, j :: 0 <= i < j < |tail| ==> tail[i].key != tail[j].key by {
        forall i, j | 0 <= i < j < |tail| ensures tail[i].key != tail[j].key {
          assert tail[i] == roster[i + 1] && tail[j] == roster[j + 1];
        }
      }
      NumberCorrectCountsKeys(tail, correct);
      CorrectKeysCons(roster, correct);
      assert roster[0].key !in CorrectKeys(tail, correct) by {
        forall i | 0 <= i < |tail| ensures tail[i].key != roster[0].key {
          assert tail[i] == roster[i + 1];
        }
      }
    }
  }

  /**
   * Counted over the room's roster, the number correct is the number of the room's players,
   * active or not and the actor included, whose choice is the correct answer.
   */
  lemma NumberCorrectCountsRoom(players: PlayerTable, code: string, correct: int)
    ensures NumberCorrect(PullPlayerData(players, code), correct) ==
      |set k | k in players && players[k].roomCode == code && players[k].choice == Some(correct)|
  {
    var roster := PullPlayerData(players, code);
    NumberCorrectCountsKeys(roster, correct);
    CorrectKeysOfRoom(players, code, roster, correct);
  }

  /** A roster listing every row of the room once: its correct keys are the room's players who chose correctly. */
  lemma CorrectKeysOfRoom(players: PlayerTable, code: string, roster: seq<PlayerData>, correct: int)
    requires forall i :: 0 <= i < |roster| ==>
      roster[i].key in players && players[roster[i].key].roomCode == code &&
      roster[i] == ToData(roster[i].key, players[roster[i].key])
    requires forall k :: k in players && players[k].roomCode == code ==>
      exists i :: 0 <= i < |roster| && roster[i].key == k
    ensures CorrectKeys(roster, correct) ==
      set k | k in players && players[k].roomCode == code && players[k].choice == Some(correct)
  {
    var s := set k | k in players && players[k].roomCode == code && players[k].choice == Some(correct);
    forall k | k in s ensures k in CorrectKeys(roster, correct) {
      var i :| 0 <= i < |roster| && roster[i].key == k;
    }
  }

  /** What a reveal adds to one player's score: the count for the actor, 1 for a correct guesser. */
  function Award(index: int, choice: Option<int>, pointer: int, correct: int, n: nat): nat
  {
    if index == pointer then n else if choice == Some(correct) then 1 else 0
  }

  /** A row after the reveal: its score raised by its award. */
  function Scored(row: PlayerRow, pointer: int, correct: int, n: nat): PlayerRow
  {
    row.(score := row.score + Award(row.index, row.choice, pointer, correct, n))
  }

  /** The player table after a reveal's scoring loop has run over the whole room. */
  function ScoreRoom(players: PlayerTable, code: string, pointer: int, correct: int, n: nat): (r: PlayerTable)
    ensures r.Keys == players.Keys
    ensures forall k :: k in players && players[k].roomCode != code ==> r[k] == players[k]
    ensures forall k :: k in players ==> r[k] == players[k].(score := r[k].score) && r[k].score >= players[k].score
  {
    map k | k in players :: if players[k].roomCode == code then Scored(players[k], pointer, correct, n) else players[k]
  }

  /**
   * The writes of the scoring loop over rows, in order: a row that earns points (the actor's,
   * or a correct guess) sets its player's score to the row's score plus the award; an UPDATE
   * whose key has no row changes nothing.
   */
  function ScoreFold(t: PlayerTable, rows: seq<PlayerData>, pointer: int, correct: int, n: nat): (r: PlayerTable)
    ensures r.Keys == t.Keys
    decreases |rows|
  {
    if rows == [] then t
    else
      var before := ScoreFold(t, rows[..|rows| - 1], pointer, correct, n);
      var row := rows[|rows| - 1];
      if (row.index == pointer || row.choice == Some(correct)) && row.key in before then
        before[row.key := before[row.key].(score := row.score + Award(row.index, row.choice, pointer, correct, n))]
      else before
  }

  /** Rows of which none is the actor's or a correct guess draw no UPDATE: the table is unchanged. */
  lemma {:induction false} ScoreFoldIdle(t: PlayerTable, rows: seq<PlayerData>, pointer: int, correct: int, n: nat)
    requires forall j :: 0 <= j < |rows| ==> rows[j].index != pointer && rows[j].choice != Some(correct)
    ensures ScoreFold(t, rows, pointer, correct, n) == t
    decreases |rows|
  {
    if rows != [] {
      var init := rows[..|rows| - 1];
      assert forall j :: 0 <= j < |init| ==> init[j] == rows[j];
      ScoreFoldIdle(t, init, pointer, correct, n);
    }
  }

  /** The keys of the first i rows. */
  function KeysUpTo(rows: seq<PlayerData>, i: int): set<int>
    requires 0 <= i <= |rows|
  {
    set j | 0 <= j < i :: rows[j].key
  }

  /**
   * After the first i rows of a roster that lists players of the table once each, exactly
   * those rows' players are scored.
   */
  lemma {:induction false} ScoreFoldPrefix(players: PlayerTable, roster: seq<PlayerData>, pointer: int, correct: int, n: nat, i: int)
    requires forall j :: 0 <= j < |roster| ==> roster[j].key in players && roster[j] == ToData(roster[j].key, players[roster[j].key])
    requires forall j, l :: 0 <= j < l < |roster| ==> roster[j].key != roster[l].key
    requires 0 <= i <= |roster|
    ensures var t := ScoreFold(players, roster[..i], pointer, correct, n);
      forall k :: k in players ==> t[k] == if k in KeysUpTo(roster, i) then Scored(players[k], pointer, correct, n) else players[k]
  {
    if i > 0 {
      ScoreFoldPrefix(players, roster, pointer, correct, n, i - 1);
      assert roster[..i][..i - 1] == roster[..i - 1];
      var key := roster[i - 1].key;
      assert key !in KeysUpTo(roster, i - 1);
      assert KeysUpTo(roster, i) == KeysUpTo(roster, i - 1) + {key};
    }
  }

  /** The loop's writes over the whole roster score exactly the room's players. */
  lemma ScoreFoldRoom(players: PlayerTable, code: string, pointer: int, correct: int, n: nat)
    ensures ScoreFold(players, PullPlayerData(players, code), pointer, correct, n) == ScoreRoom(players, code, pointer, correct, n)
  {
    var roster := PullPlayerData(players, code);
    assert roster[..|roster|] == roster;
    ScoreFoldPrefix(players, roster, pointer, correct, n, |roster|);
    RosterKeys(players, code);
    var t := ScoreFold(players, roster, pointer, correct, n);
    ScoredRoom(players, t, code, KeysUpTo(roster, |roster|), pointer, correct, n);
  }

  /**
   * The loop's writes over the first i rows of the room's roster, as left when a later UPDATE
   * fails: those rows' players, all of the room, are scored, and everyone else is as before.
   */
  lemma ScoreFoldRoomPrefix(players: PlayerTable, code: string, pointer: int, correct: int, n: nat, i: int)
    requires 0 <= i <= |PullPlayerData(players, code)|
    ensures var roster := PullPlayerData(players, code);
      var t := ScoreFold(players, roster[..i], pointer, correct, n);
      KeysUpTo(roster, i) <= RoomKeys(players, code) &&
      forall k :: k in players ==> t[k] == if k in KeysUpTo(roster, i) then Scored(players[k], pointer, correct, n) else players[k]
  {
    var roster := PullPlayerData(players, code);
    ScoreFoldPrefix(players, roster, pointer, correct, n, i);
    RosterKeys(players, code);
    assert KeysUpTo(roster, i) <= KeysUpTo(roster, |roster|);
  }

  /** Part of the loop's writes, as left by a failing UPDATE, change the room's scores only, upwards. */
  lemma ScoreFoldPrefixRaises(players: PlayerTable, code: string, pointer: int, correct: int, n: nat, i: int)
    requires 0 <= i <= |PullPlayerData(players, code)|
    ensures var t := ScoreFold(players, PullPlayerData(players, code)[..i], pointer, correct, n);
      SameSeats(players, t) &&
      (forall k :: k in players ==> t[k] == players[k].(score := t[k].score) && t[k].score >= players[k].score) &&
      (forall k :: k in players && players[k].roomCode != code ==> t[k] == players[k])
  {
    var roster := PullPlayerData(players, code);
    var t := ScoreFold(players, roster[..i], pointer, correct, n);
    ScoreFoldRoomPrefix(players, code, pointer, correct, n, i);
    forall k | k in players
      ensures t[k] == players[k].(score := t[k].score) && t[k].score >= players[k].score
      ensures players[k].roomCode != code ==> t[k] == players[k]
    {
      if k in KeysUpTo(roster, i) {
        assert k in RoomKeys(players, code);
      }
    }
  }

  /** A table that scores exactly the room's players is the room scored. */
  lemma ScoredRoom(players: PlayerTable, t: PlayerTable, code: string, keys: set<int>, pointer: int, correct: int, n: nat)
    requires keys == RoomKeys(players, code)
    requires t.Keys == players.Keys
    requires forall k :: k in players ==> t[k] == if k in keys then Scored(players[k], pointer, correct, n) else players[k]
    ensures t == ScoreRoom(players, code, pointer, correct, n)
  {
    var r := ScoreRoom(players, code, pointer, correct, n);
    forall k | k in players ensures t[k] == r[k] {
      assert k in RoomKeys(players, code) <==> players[k].roomCode == code;
    }
  }

  /** The keys the room's roster lists are the room's keys. */
  lemma RosterKeys(players: PlayerTable, code: string)
    ensures var roster := PullPlayerData(players, code);
      KeysUpTo(roster, |roster|) == RoomKeys(players, code)
  {
    var roster := PullPlayerData(players, code);
    forall k | k in RoomKeys(players, code) ensures k in KeysUpTo(roster, |roster|) {
      var i :| 0 <= i < |roster| && roster[i].key == k;
    }
  }

  /** Scoring changes scores only: every player keeps their room and index. */
  lemma ScoreRoomKeepsSeats(players: PlayerTable, code: string, pointer: int, correct: int, n: nat)
    ensures SameSeats(players, ScoreRoom(players, code, pointer, correct, n))
  {
  }

  /**
   * The scoring rule, player by player: the actor gains the number correct, any other player
   * who chose the correct answer gains 1, and everybody else keeps their score.
   */
  lemma ScoreRoomAwards(players: PlayerTable, code: string, pointer: int, correct: int, k: int)
    requires k in players && players[k].roomCode == code
    ensures var n := NumberCorrect(PullPlayerData(players, code), correct);
      var gain := ScoreRoom(players, code, pointer, correct, n)[k].score - players[k].score;
      (players[k].index == pointer ==> gain == n) &&
      (players[k].index != pointer && players[k].choice == Some(correct) ==> gain == 1) &&
      (players[k].index != pointer && players[k].choice != Some(correct) ==> gain == 0)
  {
  }

  /**
   * Where the count differs from "correct non-actors": an actor whose own stored choice is
   * the answer counts towards their own points.
   */
  lemma ActorOwnChoiceCounts(players: PlayerTable, code: string, pointer: int, correct: int, k: int)
    requires k in players && players[k].roomCode == code
    requires players[k].index == pointer && players[k].choice == Some(correct)
    ensures var correctKeys := set j | j in players && players[j].roomCode == code && players[j].choice == Some(correct);
      var n := NumberCorrect(PullPlayerData(players, code), correct);
      k in correctKeys && n == 1 + |correctKeys - {k}| &&
      ScoreRoom(players, code, pointer, correct, n)[k].score == players[k].score + n
  {
    NumberCorrectCountsRoom(players, code, correct);
    ScoreRoomAwards(players, code, pointer, correct, k);
  }

  /** UPDATE player SET choice = NULL WHERE room_code = code: every row of the room, active or not. */
  function ResetChoices(players: PlayerTable, code: string): (r: PlayerTable)
    ensures r.Keys == players.Keys
    ensures forall k :: k in players ==>
      r[k] == players[k].(choice := r[k].choice) &&
      (players[k].roomCode == code ==> r[k].choice.None?) &&
      (players[k].roomCode != code ==> r[k].choice == players[k].choice)
  {
    map k | k in players :: if players[k].roomCode == code then players[k].(choice := None) else players[k]
  }
}
