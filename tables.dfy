/**
 * The game's database as values: the room, player and card tables, the in-memory session
 * list, and the read-only queries the handlers run on them (src/utils/PullPlayerData.ts,
 * src/utils/PullRoomCode.ts, src/utils/PullRoomData.ts and the aggregate selects).
 */
module Tables {
  import opened Options
  import opened Ordering

  /** A row of the room table. */
  datatype Room = Room(code: string, currentPlayer: int, cardKey: int, questionIndex: int, revealed: bool)

  /** A row of the player table; the table maps player_key (AUTO_INCREMENT) to the rest of the row. */
  datatype PlayerRow = PlayerRow(
    roomCode: string, index: int, name: string, secret: string,
    choice: Option<int>, score: int, active: bool)

  type RoomTable = map<string, Room>
  type PlayerTable = map<int, PlayerRow>

  /** The card table joined with the question table: a card key and its questions, in question_index order. */
  type CardTable = map<int, seq<string>>

  /** An entry of the in-memory allPlayers list. */
  datatype Session = Session(socket: string, key: int, secret: string)

  /** A player as the server reports it; `secret` is None once deleted for broadcast. */
  datatype PlayerData = PlayerData(
    name: string, index: int, key: int, choice: Option<int>, score: int, active: bool,
    secret: Option<string>)

  /** A room as the server reports it, with the derived game state and the current card's questions. */
  datatype RoomData = RoomData(
    code: string, correctAnswer: int, currentPlayer: int, cardKey: int, revealed: bool,
    gameState: int, card: Option<seq<string>>)

  /** The SQL statements whose result the handlers check; one in the fault set returns a falsy result. */
  datatype Fault =
    | VerifyCount | RoomCount | PlayerLookup | RoomSelect | CardSelect | QuestionSelect
    | RosterSelect | RoomCodeSelect | MaxIndexSelect | IndexShift | PointerIncrement
    | PlayerInsert | ActiveSet | PlayerDelete | CardKeySelect | MinIndexSelect | CardDraw
    | RoundStart | GuessUpdate | RevealUpdate | ScoreUpdate | CurrentPlayerSelect
    | ActiveIndexSelect | RoundUpdate | ChoiceReset | InactiveSet | PlayerRoomSelect

  /** The keys of the rows whose room_code is code. */
  function RoomKeys(players: PlayerTable, code: string): set<int>
  {
    set k | k in players && players[k].roomCode == code
  }

  function ToData(key: int, row: PlayerRow): PlayerData
  {
    PlayerData(row.name, row.index, key, row.choice, row.score, row.active, Some(row.secret))
  }

  function IndexOf(d: PlayerData): int { d.index }

  predicate Distinct<T(==)>(s: seq<T>)
  {
    forall i, j :: 0 <= i < j < |s| ==> s[i] != s[j]
  }

  /**
   * SELECT ... FROM player WHERE room_code = code ORDER BY player_index: every row of the
   * room once, secrets and inactive rows included, in index order (rows with equal
   * indices in key order).
   */
  function PullPlayerData(players: PlayerTable, code: string): (roster: seq<PlayerData>)
    ensures |roster| == |RoomKeys(players, code)|
    ensures SortedBy(roster, IndexOf)
    ensures forall i :: 0 <= i < |roster| ==>
      roster[i].key in players && players[roster[i].key].roomCode == code &&
      roster[i] == ToData(roster[i].key, players[roster[i].key])
    ensures forall k :: k in players && players[k].roomCode == code ==>
      exists i :: 0 <= i < |roster| && roster[i].key == k
    ensures forall i, j :: 0 <= i < j < |roster| ==> roster[i].key != roster[j].key
  {
    var keys := SortedSet(RoomKeys(players, code));
    var rows := KeyOrderRows(players, code, keys);
    var roster := SortBy(rows, IndexOf);
    RosterFacts(players, code, keys, rows, roster);
    roster
  }

  /** A room of one player lists just that player. */
  lemma SoleRoster(players: PlayerTable, code: string, key: int)
    requires RoomKeys(players, code) == {key}
    ensures PullPlayerData(players, code) == [ToData(key, players[key])]
  {
    var roster := PullPlayerData(players, code);
    assert roster[0].key in RoomKeys(players, code);
  }

  /** The room's rows in the order of keys. */
  function KeyOrderRows(players: PlayerTable, code: string, keys: seq<int>): (rows: seq<PlayerData>)
    requires keys == SortedSet(RoomKeys(players, code))
    ensures |rows| == |keys|
    ensures forall i :: 0 <= i < |keys| ==> keys[i] in RoomKeys(players, code) && rows[i] == ToData(keys[i], players[keys[i]])
  {
    assert forall i :: 0 <= i < |keys| ==> keys[i] in RoomKeys(players, code);
    seq(|keys|, i requires 0 <= i < |keys| => ToData(keys[i], players[keys[i]]))
  }

  lemma RosterFacts(players: PlayerTable, code: string, keys: seq<int>, rows: seq<PlayerData>, roster: seq<PlayerData>)
    requires keys == SortedSet(RoomKeys(players, code))
    requires forall i :: 0 <= i < |keys| ==> keys[i] in RoomKeys(players, code)
    requires |rows| == |keys|
    requires forall i :: 0 <= i < |keys| ==> rows[i] == ToData(keys[i], players[keys[i]])
    requires multiset(roster) == multiset(rows)
    ensures forall i :: 0 <= i < |roster| ==>
      roster[i].key in players && players[roster[i].key].roomCode == code &&
      roster[i] == ToData(roster[i].key, players[roster[i].key])
    ensures forall k :: k in players && players[k].roomCode == code ==>
      exists i :: 0 <= i < |roster| && roster[i].key == k
    ensures forall i, j :: 0 <= i < j < |roster| ==> roster[i].key != roster[j].key
  {
    forall i | 0 <= i < |roster|
      ensures roster[i].key in players && players[roster[i].key].roomCode == code
      ensures roster[i] == ToData(roster[i].key, players[roster[i].key])
    {
      assert roster[i] in multiset(rows);
      var j :| 0 <= j < |rows| && rows[j] == roster[i];
      assert keys[j] in RoomKeys(players, code);
    }
    forall k | k in players && players[k].roomCode == code
      ensures exists i :: 0 <= i < |roster| && roster[i].key == k
    {
      assert k in RoomKeys(players, code);
      var j :| 0 <= j < |keys| && keys[j] == k;
      assert rows[j] in multiset(roster);
      var i :| 0 <= i < |roster| && roster[i] == rows[j];
      assert roster[i].key == k;
    }
    assert Distinct(rows) by {
      forall i, j | 0 <= i < j < |rows| ensures rows[i] != rows[j] {
        assert rows[i].key == keys[i] && rows[j].key == keys[j];
      }
    }
    PermutationKeepsDistinct(rows, roster);
  }

  lemma {:induction false} DistinctCountsOnce<T>(s: seq<T>, x: T)
    requires Distinct(s)
    ensures multiset(s)[x] <= 1
    decreases |s|
  {
    if s != [] {
      var init := s[..|s| - 1];
      assert s == init + [s[|s| - 1]];
      assert Distinct(init);
      DistinctCountsOnce(init, x);
      if s[|s| - 1] == x {
        forall i | 0 <= i < |init| ensures init[i] != x {
          assert s[i] != s[|s| - 1];
        }
        assert x !in init;
      }
    }
  }

  lemma RepeatCountsTwice<T>(s: seq<T>, i: int, j: int)
    requires 0 <= i < j < |s| && s[i] == s[j]
    ensures multiset(s)[s[i]] >= 2
  {
    assert s == s[..i] + [s[i]] + s[i + 1..j] + [s[j]] + s[j + 1..];
  }

  lemma PermutationKeepsDistinct<T>(a: seq<T>, b: seq<T>)
    requires Distinct(a) && multiset(a) == multiset(b)
    ensures Distinct(b)
  {
    forall i, j | 0 <= i < j < |b| ensures b[i] != b[j] {
      if b[i] == b[j] {
        RepeatCountsTwice(b, i, j);
        DistinctCountsOnce(a, b[i]);
      }
    }
  }

  /** The roster as broadcast: every secret deleted, everything else kept. */
  function Strip(roster: seq<PlayerData>): (r: seq<PlayerData>)
    ensures |r| == |roster|
    ensures forall i :: 0 <= i < |r| ==> r[i].secret.None? && r[i] == roster[i].(secret := None)
  {
    seq(|roster|, i requires 0 <= i < |roster| => roster[i].(secret := None))
  }

  /**
   * SELECT room_code FROM player WHERE player_key = key AND secret = secret: the room of
   * the player holding that key and secret, or None when no row matches or the query fails.
   */
  function PullRoomCode(players: PlayerTable, key: int, secret: string, failed: bool): (r: Option<string>)
    ensures r.Some? <==> !failed && key in players && players[key].secret == secret
    ensures r.Some? ==> r.value == players[key].roomCode
  {
    if failed || key !in players || players[key].secret != secret then None
    else Some(players[key].roomCode)
  }

  /** The game state PullRoomData derives: 0 lobby, 1 question asked, 2 answer revealed. */
  function GameState(cardKey: int, revealed: bool): (state: int)
    ensures 0 <= state <= 2
    ensures state == 0 <==> cardKey == -1
    ensures state == 1 <==> cardKey != -1 && !revealed
    ensures state == 2 <==> cardKey != -1 && revealed
  {
    if cardKey == -1 then 0 else if !revealed then 1 else 2
  }

  /** PullRoomData's outcomes: false, null, an exception (no card row for the key), or the room. */
  datatype RoomLookup = LookupFailed | NoRoom | LookupThrew | Found(data: RoomData)

  /**
   * The room with its derived state; once a card is set, the card's questions. A card key
   * with no card row makes the source dereference undefined (it throws), after the
   * questions query has run.
   */
  function PullRoomData(rooms: RoomTable, cards: CardTable, code: string, faults: set<Fault>): (r: RoomLookup)
    ensures r.LookupFailed? <==> (RoomSelect in faults ||
      (code in rooms && rooms[code].cardKey != -1 && (CardSelect in faults || QuestionSelect in faults)))
    ensures r.NoRoom? <==> RoomSelect !in faults && code !in rooms
    ensures r.LookupThrew? <==> (RoomSelect !in faults && code in rooms && rooms[code].cardKey != -1 &&
      CardSelect !in faults && QuestionSelect !in faults && rooms[code].cardKey !in cards)
    ensures r.Found? ==> (code in rooms &&
      var room := rooms[code];
      r.data.code == room.code && r.data.correctAnswer == room.questionIndex &&
      r.data.currentPlayer == room.currentPlayer && r.data.cardKey == room.cardKey &&
      r.data.revealed == room.revealed && r.data.gameState == GameState(room.cardKey, room.revealed) &&
      (r.data.card.Some? <==> r.data.gameState > 0) &&
      (r.data.card.Some? ==> room.cardKey in cards && r.data.card.value == cards[room.cardKey]))
  {
    if RoomSelect in faults then LookupFailed
    else if code !in rooms then NoRoom
    else
      var room := rooms[code];
      var state := GameState(room.cardKey, room.revealed);
      var data := RoomData(room.code, room.questionIndex, room.currentPlayer, room.cardKey, room.revealed, state, None);
      if state == 0 then Found(data)
      else if CardSelect in faults || QuestionSelect in faults then LookupFailed
      else if room.cardKey !in cards then LookupThrew
      else Found(data.(card := Some(cards[room.cardKey])))
  }

  /** The keys of the room's rows, only the active ones when activeOnly. */
  function Selected(players: PlayerTable, code: string, activeOnly: bool): set<int>
  {
    set k | k in players && players[k].roomCode == code && (!activeOnly || players[k].active)
  }

  /** The index column of the room's rows (only the active ones when activeOnly), in key order. */
  function RoomIndices(players: PlayerTable, code: string, activeOnly: bool): (r: seq<int>)
    ensures forall x :: x in r <==>
      exists k :: k in Selected(players, code, activeOnly) && players[k].index == x
    ensures r == [] <==> Selected(players, code, activeOnly) == {}
  {
    var ks := Selected(players, code, activeOnly);
    var keys := SortedSet(ks);
    assert forall i :: 0 <= i < |keys| ==> keys[i] in ks;
    var r := seq(|keys|, i requires 0 <= i < |keys| => players[keys[i]].index);
    forall x | x in r
      ensures exists k :: k in ks && players[k].index == x
    {
      var i :| 0 <= i < |r| && r[i] == x;
      assert keys[i] in ks;
    }
    forall k | k in ks ensures players[k].index in r {
      assert k in keys;
      var i :| 0 <= i < |keys| && keys[i] == k;
      assert r[i] == players[k].index;
    }
    r
  }

  /**
   * SELECT MAX(player_index) ... WHERE room_code = code, then parseInt(..) || 0: the largest
   * index in the room, 0 for an empty room (JoinGame.ts:63-69).
   */
  function MaxIndex(players: PlayerTable, code: string): (m: int)
    ensures RoomKeys(players, code) == {} ==> m == 0
    ensures forall k :: k in players && players[k].roomCode == code ==> players[k].index <= m
    ensures RoomKeys(players, code) != {} ==>
      exists k :: k in players && players[k].roomCode == code && players[k].index == m
  {
    var column := RoomIndices(players, code, false);
    assert RoomKeys(players, code) == Selected(players, code, false);
    if column == [] then 0
    else
      var m := Max(column);
      forall k | k in players && players[k].roomCode == code ensures players[k].index <= m {
        assert k in Selected(players, code, false);
        assert players[k].index in column;
      }
      assert RoomKeys(players, code) == Selected(players, code, false);
      m
  }

  /**
   * SELECT MIN(player_index) ... WHERE room_code = code AND active IS TRUE: None (SQL NULL)
   * when no row of the room is active (StartGame.ts:69-75).
   */
  function MinActiveIndex(players: PlayerTable, code: string): (m: Option<int>)
    ensures m.None? <==> forall k :: k in players && players[k].roomCode == code ==> !players[k].active
    ensures m.Some? ==> exists k :: k in players && players[k].roomCode == code && players[k].active && players[k].index == m.value
    ensures m.Some? ==> forall k :: k in players && players[k].roomCode == code && players[k].active ==> m.value <= players[k].index
  {
    var column := RoomIndices(players, code, true);
    if column == [] then
      assert forall k :: k in players && players[k].roomCode == code ==> k !in Selected(players, code, true);
      None
    else
      var m := Min(column);
      forall k | k in players && players[k].roomCode == code && players[k].active ensures m <= players[k].index {
        assert k in Selected(players, code, true);
        assert players[k].index in column;
      }
      Some(m)
  }
}
