/**
 * What the handlers guarantee across their outcomes: who acts next once a round ends, what a
 * successful join does to the room, which handlers leave the session list alone, and that a
 * reveal only ever raises scores. Each lemma reads an outcome relation of module Handlers,
 * which the GameServer methods are proved to satisfy.
 */
module Properties {
  import opened Options
  import opened Ordering
  import opened Text
  import opened Tables
  import opened Sanitizer
  import opened Rules
  import opened Messages
  import opened Errors
  import opened Handlers

  // ---------------------------------------------------------------- the next actor

  /** The turn indices of the room's active players. */
  function ActiveIndices(players: PlayerTable, code: string): set<int>
  {
    set k | k in Selected(players, code, true) :: players[k].index
  }

  /** With turn indices unique per room, the active index column holds no repeats. */
  lemma ActiveColumnDistinct(players: PlayerTable, code: string)
    requires UniqueTurns(players)
    ensures Distinct(RoomIndices(players, code, true))
  {
    var ks := Selected(players, code, true);
    var keys := SortedSet(ks);
    assert forall i :: 0 <= i < |keys| ==> keys[i] in ks;
    assert RoomIndices(players, code, true) == seq(|keys|, i requires 0 <= i < |keys| => players[keys[i]].index);
  }

  /** A value is in the sorted column exactly when it is in the column. */
  lemma AscendingMembers(column: seq<int>, x: int)
    ensures x in Ascending(column) <==> x in column
  {
    assert x in multiset(Ascending(column)) <==> x in multiset(column);
  }

  /**
   * ProgressQuestions' rule over the room's active players: the next actor is active; after
   * an active actor it is the least active index above theirs, wrapping round to the least
   * active index; after an actor who is not active it is the least active index.
   */
  lemma NextActorRule(players: PlayerTable, code: string, current: int)
    requires UniqueTurns(players)
    requires RoomIndices(players, code, true) != []
    ensures var next := NextActor(Ascending(RoomIndices(players, code, true)), current);
      var active := ActiveIndices(players, code);
      next in active &&
      (current in active && (exists x :: x in active && x > current) ==>
        next > current && forall x :: x in active && x > current ==> next <= x) &&
      ((current !in active || forall x :: x in active ==> x <= current) ==>
        forall x :: x in active ==> next <= x)
  {
    var column := RoomIndices(players, code, true);
    var sorted := Ascending(column);
    var active := ActiveIndices(players, code);
    forall x ensures x in sorted <==> x in active {
      AscendingMembers(column, x);
      if x in column {
        var k :| k in Selected(players, code, true) && players[k].index == x;
        assert x in active;
      }
    }
    ActiveColumnDistinct(players, code);
    AscendingDistinct(column);
    assert forall x :: x in sorted ==> sorted[0] <= x;
    if current in sorted {
      NextActorIsSuccessor(sorted, current);
    } else {
      NextActorWhenAbsent(sorted, current);
    }
  }

  // ---------------------------------------------------------------- rounds

  /**
   * A ProgressQuestions that writes the room starts a new round there: the next actor is an
   * active player's index, the card is drawable and not the one just played, the answer is
   * one of its questions, and the revealed flag is cleared. Only that room changes, and the
   * room's choices are cleared only after it did.
   */
  lemma ProgressRound(cards: CardTable, b: Store, a: Store, emits: seq<Emit>, code: string, faults: set<Fault>,
    cardPick: nat, answerPick: nat)
    requires UniqueTurns(b.players)
    requires DrawOutcome(cards, b, a, emits, code, faults, cardPick, answerPick)
    ensures a.sessions == b.sessions && a.nextKey == b.nextKey
    ensures a.rooms != b.rooms ==> (code in b.rooms && code in a.rooms &&
      var r := a.rooms[code];
      a.rooms == b.rooms[code := r] &&
      r == b.rooms[code].(revealed := false, cardKey := r.cardKey, questionIndex := r.questionIndex, currentPlayer := r.currentPlayer) &&
      r.currentPlayer in ActiveIndices(b.players, code) &&
      r.cardKey in cards && r.cardKey !in Reserved && r.cardKey != b.rooms[code].cardKey &&
      1 <= r.questionIndex <= |cards[r.cardKey]|)
    ensures a.players == b.players || (a.rooms != b.rooms && a.players == ResetChoices(b.players, code))
  {
    if !(CurrentPlayerSelect in faults || code !in b.rooms) && !(ActiveIndexSelect in faults || RoomIndices(b.players, code, true) == []) {
      NextActorRule(b.players, code, b.rooms[code].currentPlayer);
    }
  }

  /**
   * StartGame on a room that already has a card changes nothing and sends nothing. A
   * StartGame that writes the room was asked by one of the room's players; it hands the turn
   * to the lowest active index and sets a drawable card and an answer among its questions,
   * leaving the revealed flag and everything else as it was.
   */
  lemma StartRound(cards: CardTable, b: Store, a: Store, emits: seq<Emit>, code: string, key: int, secret: string,
    faults: set<Fault>, cardPick: nat, answerPick: nat)
    requires LaunchOutcome(cards, b, a, emits, code, key, secret, faults, cardPick, answerPick)
    ensures a.sessions == b.sessions && a.players == b.players && a.nextKey == b.nextKey
    ensures CardKeySelect !in faults && code in b.rooms && b.rooms[code].cardKey != -1 ==> a == b && emits == []
    ensures a.rooms != b.rooms ==> (code in b.rooms && b.rooms[code].cardKey == -1 &&
      key in b.players && b.players[key].roomCode == code && b.players[key].secret == secret && code in a.rooms &&
      var r := a.rooms[code];
      a.rooms == b.rooms[code := r] &&
      r == b.rooms[code].(currentPlayer := r.currentPlayer, cardKey := r.cardKey, questionIndex := r.questionIndex) &&
      MinActiveIndex(b.players, code) == Some(r.currentPlayer) &&
      r.cardKey in cards && r.cardKey !in Reserved &&
      (cards[r.cardKey] != [] ==> 1 <= r.questionIndex <= |cards[r.cardKey]|))
  {
    FindPlayerInRoom(b.players, code, key, secret);
  }

  // ---------------------------------------------------------------- joining

  /**
   * A join whose updates all succeed seats the newcomer as Admit describes, under the next
   * key, moves the pointer as JoinPointer describes, and adds exactly one session entry.
   */
  lemma JoinAdmits(b: Store, a: Store, emits: seq<Emit>, socket: string, name: string, code: string,
    data: RoomData, faults: set<Fault>, secret: string)
    requires code in b.rooms && data.currentPlayer == b.rooms[code].currentPlayer
    requires PlaceOutcome(b, a, emits, socket, name, code, data, faults, secret)
    requires MaxIndexSelect !in faults && IndexShift !in faults && PointerIncrement !in faults && PlayerInsert !in faults
    ensures a.players == Admit(b.players, code, data.currentPlayer, b.nextKey, name, secret)
    ensures a.rooms == b.rooms[code := b.rooms[code].(currentPlayer := JoinPointer(data.currentPlayer))]
    ensures a.sessions == b.sessions + [Session(socket, b.nextKey, secret)] && a.nextKey == b.nextKey + 1
  {
    if data.currentPlayer == 1 {
      assert b.rooms[code := b.rooms[code].(currentPlayer := 1)] == b.rooms;
    }
  }

  /**
   * The join's updates are separate statements: when the pointer update fails after the
   * shift, the room's indices stay shifted while no one is inserted and the pointer stays.
   */
  lemma JoinShiftPersists(b: Store, a: Store, emits: seq<Emit>, socket: string, name: string, code: string,
    data: RoomData, faults: set<Fault>, secret: string)
    requires code in b.rooms && data.currentPlayer != 1
    requires PlaceOutcome(b, a, emits, socket, name, code, data, faults, secret)
    requires MaxIndexSelect !in faults && IndexShift !in faults && PointerIncrement in faults
    ensures a == b.(players := ShiftUp(b.players, code, data.currentPlayer))
    ensures emits == Fail("game joined", Blank, JoinPointerMove)
  {
  }

  /**
   * A join that carries the key and secret of an existing player is a rejoin: no row is
   * added, no index moves, and at most that player's active flag changes.
   */
  lemma JoinRedirectSeatsNoOne(cards: CardTable, b: Store, a: Store, emits: seq<Emit>, socket: string, input: Input,
    faults: set<Fault>, secret: string, data: Cleaned)
    requires JoinOutcome(cards, b, a, emits, socket, input, faults, secret)
    requires Sanitize(input, ["playerName", "roomCode"], b.players, VerifyCount in faults) == Ok(data)
    requires Returning(b.players, data, faults)
    ensures a.rooms == b.rooms && a.nextKey == b.nextKey && a.players.Keys == b.players.Keys
    ensures forall k :: k in b.players ==> a.players[k] == b.players[k].(active := a.players[k].active)
  {
    if TextField(data, "playerName") != "" && TextField(data, "roomCode") != "" {
      var rejoin := RejoinInput(IntField(data, "playerKey"), TextField(data, "playerSecret"));
      assert RejoinOutcome(cards, b, a, emits, socket, rejoin, faults);
      RejoinKeepsSeats(cards, b, a, emits, socket, rejoin, faults);
    }
  }

  /** RejoinGame adds no row, moves no index and touches no room. */
  lemma RejoinKeepsSeats(cards: CardTable, b: Store, a: Store, emits: seq<Emit>, socket: string, input: Input,
    faults: set<Fault>)
    requires RejoinOutcome(cards, b, a, emits, socket, input, faults)
    ensures a.rooms == b.rooms && a.nextKey == b.nextKey && a.players.Keys == b.players.Keys
    ensures forall k :: k in b.players ==> a.players[k] == b.players[k].(active := a.players[k].active)
  {
    match Sanitize(input, ["playerKey", "playerSecret"], b.players, VerifyCount in faults)
    case Err(_) =>
    case Ok(data) =>
      RejoinRebinds(cards, b, a, emits, socket, IntField(data, "playerKey"), TextField(data, "playerSecret"), faults);
  }

  /**
   * RejoinGame rebinds the session list first, whatever follows; it re-activates the player
   * only when their key and secret name a room, and changes nothing else.
   */
  lemma RejoinRebinds(cards: CardTable, b: Store, a: Store, emits: seq<Emit>, socket: string, key: int, secret: string,
    faults: set<Fault>)
    requires ReturnOutcome(cards, b, a, emits, socket, key, secret, faults)
    ensures a.sessions == Rebind(b.sessions, socket, key, secret)
    ensures a.rooms == b.rooms && a.nextKey == b.nextKey && a.players.Keys == b.players.Keys
    ensures forall k :: k in b.players && k != key ==> a.players[k] == b.players[k]
    ensures a.players != b.players ==> (key in b.players && b.players[key].secret == secret &&
      a.players[key] == b.players[key].(active := true))
    ensures PullRoomCode(b.players, key, secret, RoomCodeSelect in faults).None? ==> a.players == b.players
  {
  }

  // ---------------------------------------------------------------- leaving and disconnecting

  /**
   * LeaveGame leaves the session list and the rooms alone, and deletes at most one row: that
   * of the player holding the key and secret it was given.
   */
  lemma LeaveDeletesOne(b: Store, a: Store, emits: seq<Emit>, input: Input, faults: set<Fault>, data: Cleaned)
    requires LeaveOutcome(b, a, emits, input, faults)
    requires Sanitize(input, ["playerKey", "playerSecret"], b.players, VerifyCount in faults) == Ok(data)
    ensures a.sessions == b.sessions && a.rooms == b.rooms && a.nextKey == b.nextKey
    ensures a.players == b.players || (IntField(data, "playerKey") in b.players &&
      b.players[IntField(data, "playerKey")].secret == TextField(data, "playerSecret") &&
      a.players == b.players - {IntField(data, "playerKey")})
  {
  }

  /** A LeaveGame whose input does not sanitise changes nothing. */
  lemma LeaveUncleanKeeps(b: Store, a: Store, emits: seq<Emit>, input: Input, faults: set<Fault>)
    requires LeaveOutcome(b, a, emits, input, faults)
    requires Sanitize(input, ["playerKey", "playerSecret"], b.players, VerifyCount in faults).Err?
    ensures a == b && |emits| == 1 && emits[0].audience == Sender
  {
  }

  /**
   * A disconnect leaves the session list, the rooms and every row in place; at most the
   * active flag of the socket's player is cleared.
   */
  lemma RemoveOnlyDeactivates(b: Store, a: Store, emits: seq<Emit>, socket: string, faults: set<Fault>)
    requires RemoveOutcome(b, a, emits, socket, faults)
    ensures a == b || (FindSocket(b.sessions, socket) >= 0 &&
      var key := b.sessions[FindSocket(b.sessions, socket)].key;
      key != 0 && key in b.players && a == b.(players := b.players[key := b.players[key].(active := false)]))
  {
  }

  /** A disconnect's news goes to the rest of the room only, or an error back to the socket. */
  lemma RemoveTellsOthers(b: Store, a: Store, emits: seq<Emit>, socket: string, faults: set<Fault>)
    requires RemoveOutcome(b, a, emits, socket, faults)
    ensures forall e :: e in emits ==> e.audience.Others? || e.audience.Sender?
  {
  }

  // ---------------------------------------------------------------- guesses

  /**
   * Both versions of RegisterGuess write at most one row, the one holding the key and secret
   * given, and only its choice; the rooms and the session list are left alone.
   */
  lemma GuessWritesOwnChoice(b: Store, a: Store, emits: seq<Emit>, data: Cleaned, faults: set<Fault>, broadcast: bool)
    requires GuessStored(b, a, emits, data, faults, broadcast)
    ensures a.sessions == b.sessions && a.rooms == b.rooms && a.nextKey == b.nextKey
    ensures a.players.Keys == b.players.Keys
    ensures forall k :: k in b.players ==> a.players[k] == b.players[k].(choice := a.players[k].choice)
    ensures forall k :: k in b.players && a.players[k] != b.players[k] ==>
      k == IntField(data, "playerKey") && b.players[k].secret == TextField(data, "playerSecret") &&
      a.players[k].choice == ChoiceOf(data["questionIndex"])
    ensures !broadcast ==> emits == [] || (|emits| == 1 && emits[0].audience == Sender)
  {
  }

  /** A null questionIndex retracts the guess: the player's choice becomes NULL. */
  lemma GuessRetracts(b: Store, a: Store, emits: seq<Emit>, data: Cleaned, faults: set<Fault>, broadcast: bool)
    requires GuessStored(b, a, emits, data, faults, broadcast)
    requires "questionIndex" in data && data["questionIndex"] == NullValue && GuessUpdate !in faults
    requires IntField(data, "playerKey") in b.players
    requires b.players[IntField(data, "playerKey")].secret == TextField(data, "playerSecret")
    ensures a.players[IntField(data, "playerKey")].choice.None?
  {
  }

  // ---------------------------------------------------------------- reveals

  /** RevealAnswer's scoring stage changes scores only, and never lowers one. */
  lemma ScoreOnlyRaises(b: Store, a: Store, emits: seq<Emit>, code: string, room: RoomData, faults: set<Fault>,
    failAt: nat)
    requires ScoreOutcome(b, a, emits, code, room, faults, failAt)
    ensures a.sessions == b.sessions && a.rooms == b.rooms && a.nextKey == b.nextKey
    ensures a.players.Keys == b.players.Keys
    ensures forall k :: k in b.players ==>
      a.players[k] == b.players[k].(score := a.players[k].score) && a.players[k].score >= b.players[k].score
    ensures forall k :: k in b.players && b.players[k].roomCode != code ==> a.players[k] == b.players[k]
  {
    var roster := PullPlayerData(b.players, code);
    if RosterSelect !in faults && roster != [] {
      var n := NumberCorrect(roster, room.correctAnswer);
      if ScoreUpdate in faults && failAt < |roster| &&
        (roster[failAt].index == room.currentPlayer || roster[failAt].choice == Some(room.correctAnswer))
      {
        ScoreFoldPrefixRaises(b.players, code, room.currentPlayer, room.correctAnswer, n, failAt);
      } else {
        assert a.players == ScoreRoom(b.players, code, room.currentPlayer, room.correctAnswer, n);
      }
    }
  }

  /**
   * A rejected score UPDATE keeps the scores already written: the players of the rows before
   * the failing one carry their award, everyone else is as before, and the sender alone hears
   * which kind of UPDATE failed.
   */
  lemma ScoreFailKeepsEarlier(b: Store, a: Store, emits: seq<Emit>, code: string, room: RoomData, faults: set<Fault>,
    failAt: nat)
    requires ScoreOutcome(b, a, emits, code, room, faults, failAt)
    requires RosterSelect !in faults && ScoreUpdate in faults
    requires var roster := PullPlayerData(b.players, code);
      failAt < |roster| && (roster[failAt].index == room.currentPlayer || roster[failAt].choice == Some(room.correctAnswer))
    ensures var roster := PullPlayerData(b.players, code);
      var n := NumberCorrect(roster, room.correctAnswer);
      forall k :: k in b.players ==>
        a.players[k] == if k in KeysUpTo(roster, failAt) then Scored(b.players[k], room.currentPlayer, room.correctAnswer, n)
          else b.players[k]
    ensures |emits| == 1 && emits[0].audience == Sender && !emits[0].reply.success && emits[0].reply.playerList.None?
    ensures emits[0].reply.error == Some(
      if PullPlayerData(b.players, code)[failAt].index == room.currentPlayer then RevealActorScore else RevealPlayerScore)
  {
    var roster := PullPlayerData(b.players, code);
    ScoreFoldRoomPrefix(b.players, code, room.currentPlayer, room.correctAnswer,
      NumberCorrect(roster, room.correctAnswer), failAt);
  }

  /** No row before the first one that earns points gets a write that changes anything. */
  lemma NothingScoredBeforeFirst(players: PlayerTable, roster: seq<PlayerData>, pointer: int, correct: int, n: nat)
    requires FirstScored(roster, pointer, correct) >= 0
    ensures ScoreFold(players, roster[..FirstScored(roster, pointer, correct)], pointer, correct, n) == players
  {
    var rows := roster[..FirstScored(roster, pointer, correct)];
    assert forall j :: 0 <= j < |rows| ==> rows[j] == roster[j];
    ScoreFoldIdle(players, rows, pointer, correct, n);
  }

  /** A rejected UPDATE on the first row that earns points leaves every score as it was. */
  lemma ScoreFailFirstWritesNothing(b: Store, a: Store, emits: seq<Emit>, code: string, room: RoomData, faults: set<Fault>)
    requires RosterSelect !in faults && ScoreUpdate in faults
    requires FirstScored(PullPlayerData(b.players, code), room.currentPlayer, room.correctAnswer) >= 0
    requires ScoreOutcome(b, a, emits, code, room, faults,
      FirstScored(PullPlayerData(b.players, code), room.currentPlayer, room.correctAnswer))
    ensures a == b
  {
    var roster := PullPlayerData(b.players, code);
    NothingScoredBeforeFirst(b.players, roster, room.currentPlayer, room.correctAnswer,
      NumberCorrect(roster, room.correctAnswer));
  }

  /**
   * A RevealAnswer sets the room's revealed flag first, and it stays set whatever fails
   * afterwards; it changes no other room field, and of the players only scores, upwards.
   */
  lemma RevealOnlyRaises(cards: CardTable, b: Store, a: Store, emits: seq<Emit>, code: string, faults: set<Fault>,
    failAt: nat)
    requires MarkOutcome(cards, b, a, emits, code, faults, failAt)
    ensures a.sessions == b.sessions && a.nextKey == b.nextKey
    ensures a.rooms == b.rooms || (code in b.rooms && a.rooms == b.rooms[code := b.rooms[code].(revealed := true)])
    ensures RevealUpdate !in faults && code in b.rooms ==> code in a.rooms && a.rooms[code].revealed
    ensures a.players.Keys == b.players.Keys
    ensures forall k :: k in b.players ==>
      a.players[k] == b.players[k].(score := a.players[k].score) && a.players[k].score >= b.players[k].score
  {
    if RevealUpdate !in faults {
      var revealed := b.(rooms := if code in b.rooms then b.rooms[code := b.rooms[code].(revealed := true)] else b.rooms);
      match PullRoomData(revealed.rooms, cards, code, faults)
      case Found(room) => ScoreOnlyRaises(revealed, a, emits, code, room, faults, failAt);
      case _ =>
    }
  }

  // ---------------------------------------------------------------- creating a room

  /**
   * A GenerateGame that changes anything creates exactly one room, under a code of five
   * capitals that no room held, with the pointer on 1 and no card; and exactly one player,
   * its creator, at index 1 under the next key, named by at most 12 characters and holding a
   * secret of letters and digits, with one session entry for them.
   */
  lemma CreateFreshRoom(b: Store, a: Store, emits: seq<Emit>, socket: string, data: Cleaned, faults: set<Fault>,
    rawSecret: string, attempts: seq<seq<nat>>)
    requires forall j :: 0 <= j < |attempts| ==> |attempts[j]| == 5
    requires exists j :: 0 <= j < |attempts| && CodeOf(attempts[j]) !in b.rooms
    requires CreateOutcome(b, a, emits, socket, data, faults, rawSecret, attempts)
    ensures a != b ==> (
      var code := CodeOf(attempts[FirstFresh(attempts, b.rooms)]);
      var key := b.nextKey;
      code !in b.rooms && |code| == 5 && (forall i :: 0 <= i < |code| ==> 'A' <= code[i] <= 'Z') &&
      a.rooms == b.rooms[code := Room(code, 1, -1, 0, false)] &&
      key in a.players && a.players == b.players[key := a.players[key]] && a.nextKey == key + 1 &&
      var row := a.players[key];
      row.roomCode == code && row.index == 1 && 1 <= |row.name| <= 12 && row.score == 0 && row.active &&
      (forall i :: 0 <= i < |row.secret| ==> IsAlnum(row.secret[i])) &&
      a.sessions == b.sessions + [Session(socket, key, row.secret)])
  {
  }
}
