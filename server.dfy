/**
 * The game server: the database tables, the allPlayers session list and the next
 * AUTO_INCREMENT key, updated in place by one method per socket event. Each method does
 * what its handler does, step by step, and is proved to have exactly the effect its
 * outcome relation in module Handlers describes.
 */
module Server {
  import opened Options
  import opened Text
  import opened Tables
  import opened Sanitizer
  import opened Rules
  import opened Messages
  import opened Errors
  import opened Handlers

  /** The invariant every handler keeps. */
  predicate Consistent(s: Store)
  {
    1 <= s.nextKey &&
    (forall k :: k in s.players ==> 1 <= k < s.nextKey) &&
    (forall c :: c in s.rooms ==> s.rooms[c].code == c) &&
    (forall k :: k in s.players ==> s.players[k].roomCode in s.rooms) &&
    UniqueTurns(s.players)
  }

  class GameServer {
    var rooms: RoomTable
    var players: PlayerTable
    var sessions: seq<Session>
    var nextKey: int
    /** The card and question tables, which no handler writes. */
    const cards: CardTable

    function Snapshot(): Store
      reads this
    {
      Store(rooms, players, sessions, nextKey)
    }

    predicate Valid()
      reads this
    {
      Consistent(Snapshot())
    }

    constructor (cards: CardTable)
      ensures Valid()
      ensures this.cards == cards && rooms == map[] && players == map[] && sessions == [] && nextKey == 1
    {
      this.cards := cards;
      rooms := map[];
      players := map[];
      sessions := [];
      nextKey := 1;
    }

    // ---------------------------------------------------------------- GenerateGame

    /** socket.on('request game'): GenerateGame. */
    method GenerateGame(socket: string, input: Input, faults: set<Fault>, rawSecret: string, attempts: seq<seq<nat>>)
      returns (emits: seq<Emit>)
      requires Valid()
      requires forall j :: 0 <= j < |attempts| ==> |attempts[j]| == 5
      requires exists j :: 0 <= j < |attempts| && CodeOf(attempts[j]) !in rooms
      modifies this
      ensures Valid()
      ensures GenerateOutcome(old(Snapshot()), Snapshot(), emits, socket, input, faults, rawSecret, attempts)
    {
      var r := SanitizeData(input, ["playerName"], players, faults);
      if !r.clean {
        return Fail("game created", Blank, CreateUnclean + r.error.value);
      }
      emits := CreateRoom(socket, r.data, faults, rawSecret, attempts);
    }

    /** GenerateGame after SanitizeData: draw a fresh code, insert the room and its creator. */
    method CreateRoom(socket: string, data: Cleaned, faults: set<Fault>, rawSecret: string, attempts: seq<seq<nat>>)
      returns (emits: seq<Emit>)
      requires Valid()
      requires forall j :: 0 <= j < |attempts| ==> |attempts[j]| == 5
      requires exists j :: 0 <= j < |attempts| && CodeOf(attempts[j]) !in rooms
      modifies this
      ensures Valid()
      ensures CreateOutcome(old(Snapshot()), Snapshot(), emits, socket, data, faults, rawSecret, attempts)
    {
      var playerName := TextField(data, "playerName");
      if playerName == "" {
        return Fail("game created", Blank, CreateNoName);
      }
      playerName := Take(playerName, 12);
      var playerSecret := Keep(rawSecret, IsAlnum);
      var reply := Blank.(playerSecret := Some(playerSecret));
      if RoomCount in faults {
        return Fail("game created", reply, CreateCodeCheck);
      }
      var code := FreshCode(attempts);

      var key := nextKey;
      rooms := rooms[code := Room(code, 1, -1, 0, false)];
      players := players[key := NewRow(code, 1, playerName, playerSecret)];
      nextKey := nextKey + 1;
      sessions := sessions + [Session(socket, key, playerSecret)];
      CreateKeepsConsistent(old(Snapshot()), code, Room(code, 1, -1, 0, false), NewRow(code, 1, playerName, playerSecret), sessions);
      assert Valid();
      emits := AnnounceCreate(code, key, faults);
    }

    /** GenerateGame's roster query, which finds the creator alone, and its emit. */
    method AnnounceCreate(code: string, key: int, faults: set<Fault>) returns (emits: seq<Emit>)
      requires key in players && RoomKeys(players, code) == {key}
      requires players[key].index == 1 && players[key].choice.None? && players[key].score == 0 && players[key].active
      ensures CreateAnnounced(emits, code, key, players[key].name, players[key].secret, faults)
    {
      var reply := Blank.(playerSecret := Some(players[key].secret), playerKey := Some(key),
        roomData := Some(RoomData(code, 0, 1, -1, false, 0, None)));
      SoleRoster(players, code, key);
      var playerList := PullPlayerData(players, code);
      if RosterSelect in faults || |playerList| != 1 {
        return Fail("game created", reply, CreateRoster);
      }
      reply := reply.(playerList := Some(playerList), success := true);
      emits := [Emit("game created", Sender, reply)];
    }

    /** GenerateGame's do-while loop: five random capitals per attempt until no room holds the code. */
    method FreshCode(attempts: seq<seq<nat>>) returns (code: string)
      requires forall j :: 0 <= j < |attempts| ==> |attempts[j]| == 5
      requires exists j :: 0 <= j < |attempts| && CodeOf(attempts[j]) !in rooms
      ensures code == CodeOf(attempts[FirstFresh(attempts, rooms)])
      ensures code !in rooms && |code| == 5
    {
      var i := 0;
      while true
        invariant 0 <= i < |attempts|
        invariant forall j :: 0 <= j < i ==> CodeOf(attempts[j]) in rooms
        invariant exists j :: i <= j < |attempts| && CodeOf(attempts[j]) !in rooms
        decreases |attempts| - i
      {
        code := "";
        for d := 0 to 5
          invariant code == CodeOf(attempts[i][..d])
        {
          code := code + [(65 + attempts[i][d] % 26) as char];
        }
        assert attempts[i][..5] == attempts[i];
        if code !in rooms {
          break;
        }
        i := i + 1;
      }
      assert FirstFresh(attempts, rooms) == i;
    }

    // ---------------------------------------------------------------- JoinGame and RejoinGame

    /** socket.on('join game'): JoinGame; secret stands for the random base-36 secret it draws. */
    method JoinGame(socket: string, input: Input, faults: set<Fault>, secret: string) returns (emits: seq<Emit>)
      requires Valid()
      requires forall i :: 0 <= i < |secret| ==> IsBase36(secret[i])
      modifies this
      ensures Valid()
      ensures JoinOutcome(cards, old(Snapshot()), Snapshot(), emits, socket, input, faults, secret)
    {
      var r := SanitizeData(input, ["playerName", "roomCode"], players, faults);
      if !r.clean {
        return Fail("game joined", Blank, CreateUnclean + r.error.value);
      }
      var playerName := TextField(r.data, "playerName");
      var roomText := TextField(r.data, "roomCode");
      if playerName == "" || roomText == "" {
        return Fail("game joined", Blank, JoinMissing);
      }

      var givenKey := IntField(r.data, "playerKey");
      var givenSecret := TextField(r.data, "playerSecret");
      if givenKey != 0 && givenSecret != "" {
        if PlayerLookup !in faults && givenKey in players && players[givenKey].secret == givenSecret {
          emits := RejoinGame(socket, RejoinInput(givenKey, givenSecret), faults);
          return;
        }
      }
      emits := SeatPlayer(socket, Take(playerName, 12), ToUpper(roomText), faults, secret);
    }

    /** JoinGame for a new player: look the room up and work out the newcomer's index. */
    method SeatPlayer(socket: string, playerName: string, code: string, faults: set<Fault>, secret: string)
      returns (emits: seq<Emit>)
      requires Valid()
      modifies this
      ensures Valid()
      ensures SeatOutcome(cards, old(Snapshot()), Snapshot(), emits, socket, playerName, code, faults, secret)
    {
      var lookup := PullRoomData(rooms, cards, code, faults);
      if lookup.LookupFailed? {
        return Fail("game joined", Blank, JoinLookup);
      }
      if lookup.NoRoom? {
        return Fail("game joined", Blank, JoinMissingRoom);
      }
      if lookup.LookupThrew? {
        return [];
      }
      emits := PlacePlayer(socket, playerName, code, lookup.data, faults, secret);
    }

    /** JoinGame's MAX(player_index) query and the choice between appending and shifting. */
    method PlacePlayer(socket: string, playerName: string, code: string, roomData: RoomData,
      faults: set<Fault>, secret: string) returns (emits: seq<Emit>)
      requires Valid()
      requires code in rooms && roomData.currentPlayer == rooms[code].currentPlayer
      modifies this
      ensures Valid()
      ensures PlaceOutcome(old(Snapshot()), Snapshot(), emits, socket, playerName, code, roomData, faults, secret)
    {
      if MaxIndexSelect in faults {
        return Fail("game joined", Blank, JoinMaxIndex);
      }
      var maxIndex := MaxIndex(players, code);
      if roomData.currentPlayer == 1 {
        assert JoinIndex(players, code, 1) == maxIndex + 1;
        emits := InsertPlayer(socket, playerName, code, maxIndex + 1, roomData, faults, secret);
      } else {
        assert JoinIndex(players, code, roomData.currentPlayer) == roomData.currentPlayer;
        emits := ShiftSeats(socket, playerName, code, roomData, faults, secret);
      }
    }

    /** JoinGame's shift of the room's indices from the pointer on, when the pointer is not 1. */
    method ShiftSeats(socket: string, playerName: string, code: string, roomData: RoomData,
      faults: set<Fault>, secret: string) returns (emits: seq<Emit>)
      requires Valid()
      requires code in rooms && roomData.currentPlayer == rooms[code].currentPlayer != 1
      modifies this
      ensures Valid()
      ensures ShiftOutcome(old(Snapshot()), Snapshot(), emits, socket, playerName, code, roomData, roomData.currentPlayer, faults, secret)
    {
      if IndexShift in faults {
        return Fail("game joined", Blank, JoinShift);
      }
      ShiftKeepsConsistent(Snapshot(), code, roomData.currentPlayer);
      players := ShiftUp(players, code, roomData.currentPlayer);
      assert Valid();
      emits := MovePointer(socket, playerName, code, roomData, faults, secret);
    }

    /** JoinGame's move of the room's pointer past the seat the newcomer is about to take. */
    method MovePointer(socket: string, playerName: string, code: string, roomData: RoomData,
      faults: set<Fault>, secret: string) returns (emits: seq<Emit>)
      requires Valid()
      requires code in rooms && roomData.currentPlayer == rooms[code].currentPlayer
      requires forall k :: k in players && players[k].roomCode == code ==> players[k].index != roomData.currentPlayer
      modifies this
      ensures Valid()
      ensures PointerOutcome(old(Snapshot()), Snapshot(), emits, socket, playerName, code, roomData, roomData.currentPlayer, faults, secret)
    {
      var pointer := roomData.currentPlayer;
      if PointerIncrement in faults {
        return Fail("game joined", Blank, JoinPointerMove);
      }
      rooms := rooms[code := rooms[code].(currentPlayer := pointer + 1)];
      KeepConsistent(old(Snapshot()), Snapshot());
      assert Valid();
      emits := InsertPlayer(socket, playerName, code, pointer, roomData.(currentPlayer := pointer + 1), faults, secret);
    }

    /** JoinGame's INSERT of the newcomer, who takes a free index of the room, and its session entry. */
    method InsertPlayer(socket: string, playerName: string, code: string, index: int, roomData: RoomData,
      faults: set<Fault>, secret: string) returns (emits: seq<Emit>)
      requires Valid()
      requires code in rooms
      requires forall k :: k in players && players[k].roomCode == code ==> players[k].index != index
      modifies this
      ensures Valid()
      ensures InsertOutcome(old(Snapshot()), Snapshot(), emits, socket, playerName, code, index, roomData, faults, secret)
    {
      if PlayerInsert in faults {
        return Fail("game joined", Blank, JoinInsert);
      }
      var key := nextKey;
      InsertKeepsConsistent(Snapshot(), NewRow(code, index, playerName, secret), sessions + [Session(socket, key, secret)]);
      players := players[key := NewRow(code, index, playerName, secret)];
      nextKey := nextKey + 1;
      sessions := sessions + [Session(socket, key, secret)];
      assert Valid();
      emits := AnnounceJoin(code, key, roomData, faults, secret);
    }

    /** JoinGame's roster query and its two emits. */
    method AnnounceJoin(code: string, key: int, roomData: RoomData, faults: set<Fault>, secret: string)
      returns (emits: seq<Emit>)
      ensures JoinAnnounced(players, emits, code, key, roomData, faults, secret)
    {
      var reply := Blank.(playerKey := Some(key));
      var roster := PullPlayerData(players, code);
      if RosterSelect in faults || |roster| == 0 {
        return Fail("game joined", reply, JoinRoster);
      }
      reply := reply.(playerList := Some(Strip(roster)), roomData := Some(roomData), success := true);
      emits := [Emit("player joined", Others(code), reply), Emit("game joined", Sender, reply.(playerSecret := Some(secret)))];
    }

    /** socket.on('rejoin game'): RejoinGame. */
    method RejoinGame(socket: string, input: Input, faults: set<Fault>) returns (emits: seq<Emit>)
      requires Valid()
      modifies this
      ensures Valid()
      ensures RejoinOutcome(cards, old(Snapshot()), Snapshot(), emits, socket, input, faults)
    {
      var r := SanitizeData(input, ["playerKey", "playerSecret"], players, faults);
      if !r.clean {
        return Fail("game rejoined", Blank, RejoinUnclean + r.error.value);
      }
      emits := ReturnPlayer(socket, IntField(r.data, "playerKey"), TextField(r.data, "playerSecret"), faults);
    }

    /** RejoinGame after SanitizeData: point the session at the new socket, re-activate, announce. */
    method ReturnPlayer(socket: string, key: int, secret: string, faults: set<Fault>) returns (emits: seq<Emit>)
      requires Valid()
      modifies this
      ensures Valid()
      ensures ReturnOutcome(cards, old(Snapshot()), Snapshot(), emits, socket, key, secret, faults)
    {
      var reply := Blank.(playerKey := Some(key));
      var entry := FindSession(sessions, key, secret);
      if entry >= 0 {
        sessions := sessions[entry := sessions[entry].(socket := socket)];
      } else {
        sessions := sessions + [Session(socket, key, secret)];
      }

      var room := PullRoomCode(players, key, secret, RoomCodeSelect in faults);
      if room.None? || room.value == "" {
        return Fail("game rejoined", reply, RejoinNoRoom);
      }
      var code := room.value;
      if ActiveSet in faults {
        return Fail("game rejoined", reply, RejoinActivate);
      }
      players := players[key := players[key].(active := true)];
      KeepConsistent(old(Snapshot()), Snapshot());
      assert Valid();
      emits := AnnounceReturn(code, key, faults);
    }

    /** RejoinGame's roster and room queries and its two emits. */
    method AnnounceReturn(code: string, key: int, faults: set<Fault>) returns (emits: seq<Emit>)
      ensures ReturnAnnounced(cards, Snapshot(), emits, code, key, faults)
    {
      var reply := Blank.(playerKey := Some(key));
      var roster := PullPlayerData(players, code);
      if RosterSelect in faults || |roster| == 0 {
        return Fail("game rejoined", reply, RejoinRoster);
      }
      reply := reply.(playerList := Some(Strip(roster)));

      var lookup := PullRoomData(rooms, cards, code, faults);
      if lookup.LookupFailed? {
        return Fail("game rejoined", reply, RejoinLookup);
      }
      if lookup.NoRoom? {
        return Fail("game rejoined", reply, RejoinMissingRoom);
      }
      if lookup.LookupThrew? {
        return [];
      }
      reply := reply.(roomData := Some(lookup.data), success := true);
      emits := [Emit("player joined", Others(code), reply), Emit("game rejoined", Sender, reply)];
    }

    // ---------------------------------------------------------------- LeaveGame and RemovePlayer

    /** socket.on('leave game'): LeaveGame. */
    method LeaveGame(input: Input, faults: set<Fault>) returns (emits: seq<Emit>)
      requires Valid()
      modifies this
      ensures Valid()
      ensures LeaveOutcome(old(Snapshot()), Snapshot(), emits, input, faults)
    {
      var r := SanitizeData(input, ["playerKey", "playerSecret"], players, faults);
      if !r.clean {
        return Fail("game left", Blank, LeaveUnclean + r.error.value);
      }
      emits := DeletePlayer(r.data, faults);
    }

    /** LeaveGame after SanitizeData: delete the row and show the rest of the room who is left. */
    method DeletePlayer(data: Cleaned, faults: set<Fault>) returns (emits: seq<Emit>)
      requires Valid()
      modifies this
      ensures Valid()
      ensures DepartOutcome(old(Snapshot()), Snapshot(), emits, data, faults)
    {
      var key := IntField(data, "playerKey");
      var secret := TextField(data, "playerSecret");
      if key == 0 || secret == "" {
        return Fail("game left", Blank, MissingCredentials);
      }
      var reply := Blank.(playerKey := Some(key));

      var room := PullRoomCode(players, key, secret, RoomCodeSelect in faults);
      if room.None? || room.value == "" {
        return Fail("game left", reply, LeaveNoRoom);
      }
      var code := room.value;
      if PlayerDelete in faults {
        return Fail("game left", reply, LeaveDelete);
      }
      players := players - {key};
      KeepConsistent(old(Snapshot()), Snapshot());
      assert Valid();

      var roster := PullPlayerData(players, code);
      if RosterSelect in faults || |roster| == 0 {
        return Fail("game left", reply, LeaveRoster);
      }
      reply := reply.(playerList := Some(Strip(roster)), success := true);
      emits := [Emit("game left", Sender, reply), Emit("player left", Others(code), reply)];
    }

    /** socket.on('disconnect'): RemovePlayer. */
    method RemovePlayer(socket: string, faults: set<Fault>) returns (emits: seq<Emit>)
      requires Valid()
      modifies this
      ensures Valid()
      ensures RemoveOutcome(old(Snapshot()), Snapshot(), emits, socket, faults)
    {
      var entry := FindSocket(sessions, socket);
      if entry == -1 {
        return [];
      }
      var key := sessions[entry].key;
      if key == 0 {
        return [];
      }
      var reply := Blank.(playerKey := Some(key));

      if InactiveSet in faults {
        return Fail("player disconnected", reply, RemoveDeactivate);
      }
      if key in players {
        players := players[key := players[key].(active := false)];
        KeepConsistent(old(Snapshot()), Snapshot());
        assert Valid();
      }

      if PlayerRoomSelect in faults {
        return Fail("player disconnected", reply, RemoveRoomCheck);
      }
      if key !in players {
        return [];
      }
      var code := players[key].roomCode;

      var roster := PullPlayerData(players, code);
      if RosterSelect in faults || |roster| == 0 {
        return Fail("player disconnected", reply, RemoveRoster);
      }
      reply := reply.(playerList := Some(Strip(roster)), success := true);
      emits := [Emit("player disconnected", Others(code), reply)];
    }

    // ---------------------------------------------------------------- RegisterGuess

    /** socket.on('send guess'): RegisterGuess. */
    method RegisterGuess(input: Input, faults: set<Fault>) returns (emits: seq<Emit>)
      requires Valid()
      modifies this
      ensures Valid()
      ensures GuessOutcome(old(Snapshot()), Snapshot(), emits, input, faults)
    {
      var r := SanitizeData(input, ["playerKey", "playerSecret"], players, faults);
      if !r.clean {
        return Fail("guess made", Blank, GuessUnclean + r.error.value);
      }
      if IntField(r.data, "playerKey") == 0 || TextField(r.data, "playerSecret") == "" {
        return Fail("guess made", Blank, MissingCredentials);
      }
      emits := StoreGuess(r.data, faults, "roomCode" in r.data);
    }

    /** RegisterGuess as index.js has it: no credential check, and the roster always goes out. */
    method LegacyRegisterGuess(input: Input, faults: set<Fault>) returns (emits: seq<Emit>)
      requires Valid()
      modifies this
      ensures Valid()
      ensures LegacyGuessOutcome(old(Snapshot()), Snapshot(), emits, input, faults)
    {
      var r := SanitizeData(input, ["playerKey", "playerSecret"], players, faults);
      if !r.clean {
        return Fail("guess made", Blank, GuessUnclean + r.error.value);
      }
      emits := StoreGuess(r.data, faults, true);
    }

    /** The choice update both versions make, and the roster broadcast when broadcast holds. */
    method StoreGuess(data: Cleaned, faults: set<Fault>, broadcast: bool) returns (emits: seq<Emit>)
      requires Valid()
      modifies this
      ensures Valid()
      ensures GuessStored(old(Snapshot()), Snapshot(), emits, data, faults, broadcast)
    {
      if "questionIndex" !in data {
        return [];
      }
      if GuessUpdate in faults {
        return Fail("guess made", Blank, GuessStore);
      }
      players := SetChoice(players, IntField(data, "playerKey"), TextField(data, "playerSecret"), ChoiceOf(data["questionIndex"]));
      KeepConsistent(old(Snapshot()), Snapshot());
      assert Valid();
      if !broadcast {
        return [];
      }
      var code := GuessRoom(data);
      var roster := PullPlayerData(players, code);
      if RosterSelect in faults || |roster| == 0 {
        return Fail("guess made", Blank, GuessRoster);
      }
      var reply := Blank.(playerList := Some(Strip(roster)), success := true);
      emits := [Emit("guess made", Everyone(code), reply)];
    }

    // ---------------------------------------------------------------- StartGame

    /** socket.on('start game'): StartGame; the picks stand for ORDER BY RAND() and Math.random. */
    method StartGame(input: Input, faults: set<Fault>, cardPick: nat, answerPick: nat) returns (emits: seq<Emit>)
      requires Valid()
      modifies this
      ensures Valid()
      ensures StartOutcome(cards, old(Snapshot()), Snapshot(), emits, input, faults, cardPick, answerPick)
    {
      var r := SanitizeData(input, ["roomCode", "playerKey", "playerSecret"], players, faults);
      if !r.clean {
        return Fail("game started", Blank, StartUnclean + r.error.value);
      }
      var code := TextField(r.data, "roomCode");
      var key := IntField(r.data, "playerKey");
      var secret := TextField(r.data, "playerSecret");
      if code == "" || key == 0 || secret == "" {
        return Fail("game started", Blank, StartMissing);
      }
      emits := LaunchGame(code, key, secret, faults, cardPick, answerPick);
    }

    /** StartGame's checks: the room exists, has no card yet, and counts the requester among its players. */
    method LaunchGame(code: string, key: int, secret: string, faults: set<Fault>, cardPick: nat, answerPick: nat)
      returns (emits: seq<Emit>)
      requires Valid()
      modifies this
      ensures Valid()
      ensures LaunchOutcome(cards, old(Snapshot()), Snapshot(), emits, code, key, secret, faults, cardPick, answerPick)
    {
      if CardKeySelect in faults {
        return Fail("game started", Blank, StartCardCheck);
      }
      if code !in rooms {
        return Fail("game started", Blank, StartNoRoom);
      }
      if rooms[code].cardKey != -1 {
        return [];
      }
      var roster := PullPlayerData(players, code);
      if RosterSelect in faults || |roster| == 0 {
        return Fail("game started", Blank, StartRoster);
      }
      if FindPlayer(roster, key, secret) == -1 {
        return Fail("game started", Blank, StartStranger);
      }
      emits := BeginRound(code, Blank.(playerList := Some(Strip(roster))), faults, cardPick, answerPick);
    }

    /** StartGame's first round: the lowest active index acts, a card and an answer are drawn. */
    method BeginRound(code: string, reply: Reply, faults: set<Fault>, cardPick: nat, answerPick: nat)
      returns (emits: seq<Emit>)
      requires Valid()
      requires code in rooms
      modifies this
      ensures Valid()
      ensures FirstRoundOutcome(cards, old(Snapshot()), Snapshot(), emits, code, reply, faults, cardPick, answerPick)
    {
      var first := MinActiveIndex(players, code);
      if MinIndexSelect in faults || first.None? {
        return Fail("game started", reply, StartNoPlayers);
      }
      if CardDraw in faults {
        return Fail("game started", reply, StartCard);
      }
      var draw := DrawCard(cards, {}, cardPick);
      if draw.None? {
        return [];
      }
      var card := draw.value;
      var drawn := reply.(card := Some(card));
      if QuestionSelect in faults {
        return Fail("game started", drawn, StartQuestions);
      }
      var questions := cards[card];
      var asked := drawn.(questions := Some(questions));
      var answer := DrawAnswer(|questions|, answerPick);
      if RoundStart in faults {
        return Fail("game started", asked,
          StartRound);
      }
      rooms := rooms[code := rooms[code].(currentPlayer := first.value, cardKey := card, questionIndex := answer)];
      KeepConsistent(old(Snapshot()), Snapshot());
      assert Valid();

      var lookup := PullRoomData(rooms, cards, code, faults);
      if lookup.LookupFailed? {
        return Fail("game started", asked, StartLookup);
      }
      if lookup.NoRoom? {
        return Fail("game started", asked, StartMissingRoom);
      }
      if lookup.LookupThrew? {
        return [];
      }
      emits := [Emit("game started", Everyone(code), asked.(roomData := Some(lookup.data), success := true))];
    }

    // ---------------------------------------------------------------- RevealAnswer

    /** socket.on('reveal answer'): RevealAnswer. */
    method RevealAnswer(input: Input, faults: set<Fault>, failAt: nat) returns (emits: seq<Emit>)
      requires Valid()
      modifies this
      ensures Valid()
      ensures RevealOutcome(cards, old(Snapshot()), Snapshot(), emits, input, faults, failAt)
    {
      var r := SanitizeData(input, ["playerKey", "playerSecret", "roomCode"], players, faults);
      if !r.clean {
        return Fail("answer revealed", Blank, RevealUnclean + r.error.value);
      }
      if IntField(r.data, "playerKey") == 0 || TextField(r.data, "playerSecret") == "" || TextField(r.data, "roomCode") == "" {
        return Fail("answer revealed", Blank, MissingRoomCredentials);
      }
      emits := MarkRevealed(TextField(r.data, "roomCode"), faults, failAt);
    }

    /** RevealAnswer's UPDATE of the revealed flag, then the room read that the scoring needs. */
    method MarkRevealed(code: string, faults: set<Fault>, failAt: nat) returns (emits: seq<Emit>)
      requires Valid()
      modifies this
      ensures Valid()
      ensures MarkOutcome(cards, old(Snapshot()), Snapshot(), emits, code, faults, failAt)
    {
      if RevealUpdate in faults {
        return Fail("answer revealed", Blank, RevealSet);
      }
      if code in rooms {
        rooms := rooms[code := rooms[code].(revealed := true)];
        KeepConsistent(old(Snapshot()), Snapshot());
        assert Valid();
      }

      var lookup := PullRoomData(rooms, cards, code, faults);
      if lookup.LookupFailed? {
        return Fail("answer revealed", Blank, RevealLookup);
      }
      if lookup.NoRoom? {
        return Fail("answer revealed", Blank, RevealMissingRoom);
      }
      if lookup.LookupThrew? {
        return [];
      }
      emits := ScorePlayers(code, lookup.data, faults, failAt);
    }

    /** RevealAnswer's loop over the roster: the actor gains the number of correct guesses, each correct guesser one. */
    method ScorePlayers(code: string, room: RoomData, faults: set<Fault>, failAt: nat) returns (emits: seq<Emit>)
      requires Valid()
      modifies this
      ensures Valid()
      ensures ScoreOutcome(old(Snapshot()), Snapshot(), emits, code, room, faults, failAt)
    {
      var roster := PullPlayerData(players, code);
      if RosterSelect in faults || |roster| == 0 {
        return Fail("answer revealed", Blank.(roomData := Some(room)), RevealRoster);
      }
      ghost var b := Snapshot();
      var table;
      table, emits := ScoreStore(Snapshot(), code, room, faults, failAt);
      PlayersKeepConsistent(b, table);
      players := table;
      assert Snapshot() == b.(players := table);
    }

    // ---------------------------------------------------------------- ProgressQuestions

    /** socket.on('progress questions'): ProgressQuestions; the picks stand for ORDER BY RAND() and Math.random. */
    method ProgressQuestions(input: Input, faults: set<Fault>, cardPick: nat, answerPick: nat) returns (emits: seq<Emit>)
      requires Valid()
      modifies this
      ensures Valid()
      ensures ProgressOutcome(cards, old(Snapshot()), Snapshot(), emits, input, faults, cardPick, answerPick)
    {
      var r := SanitizeData(input, ["playerKey", "playerSecret", "roomCode"], players, faults);
      if !r.clean {
        return Fail("questions progressed", Blank, ProgressUnclean + r.error.value);
      }
      if IntField(r.data, "playerKey") == 0 || TextField(r.data, "playerSecret") == "" || TextField(r.data, "roomCode") == "" {
        return Fail("questions progressed", Blank, MissingRoomCredentials);
      }
      emits := DrawNext(TextField(r.data, "roomCode"), faults, cardPick, answerPick);
    }

    /** ProgressQuestions' draws: the next active index after the actor, a different card, an answer. */
    method DrawNext(code: string, faults: set<Fault>, cardPick: nat, answerPick: nat) returns (emits: seq<Emit>)
      requires Valid()
      modifies this
      ensures Valid()
      ensures DrawOutcome(cards, old(Snapshot()), Snapshot(), emits, code, faults, cardPick, answerPick)
    {
      if CurrentPlayerSelect in faults || code !in rooms {
        return Fail("questions progressed", Blank, ProgressActor);
      }
      var currentPlayerIndex := rooms[code].currentPlayer;

      var playerIndexes := RoomIndices(players, code, true);
      if ActiveIndexSelect in faults || |playerIndexes| == 0 {
        return Fail("questions progressed", Blank, ProgressIndices);
      }
      playerIndexes := Ascending(playerIndexes);
      var nextPlayerIndex := NextActor(playerIndexes, currentPlayerIndex);
      var reply := Blank.(currentPlayerIndex := Some(nextPlayerIndex));

      var draw := DrawCard(cards, {rooms[code].cardKey}, cardPick);
      if CardDraw in faults || draw.None? {
        return Fail("questions progressed", reply, ProgressCard);
      }
      var card := draw.value;
      reply := reply.(card := Some(card));

      var questions := cards[card];
      if QuestionSelect in faults || |questions| == 0 {
        return Fail("questions progressed", reply, ProgressQuestionList);
      }
      var answer := DrawAnswer(|questions|, answerPick);
      reply := reply.(questions := Some(questions), questionIndex := Some(answer));
      emits := OpenRound(code, nextPlayerIndex, card, answer, reply, faults);
    }

    /** ProgressQuestions' writes: the room's new round, the cleared guesses, then the broadcast. */
    method OpenRound(code: string, next: int, card: int, answer: int, reply: Reply, faults: set<Fault>)
      returns (emits: seq<Emit>)
      requires Valid()
      requires code in rooms
      modifies this
      ensures Valid()
      ensures NextRoundOutcome(cards, old(Snapshot()), Snapshot(), emits, code, next, card, answer, reply, faults)
    {
      if RoundUpdate in faults {
        return Fail("questions progressed", reply,
          ProgressRound);
      }
      rooms := rooms[code := rooms[code].(revealed := false, cardKey := card, questionIndex := answer,
        currentPlayer := next)];
      KeepConsistent(old(Snapshot()), Snapshot());
      assert Valid();
      if ChoiceReset in faults {
        return Fail("questions progressed", reply, ProgressReset);
      }
      players := ResetChoices(players, code);
      KeepConsistent(old(Snapshot()), Snapshot());
      assert Valid();

      var roster := PullPlayerData(players, code);
      if RosterSelect in faults || |roster| == 0 {
        return Fail("questions progressed", reply, ProgressRoster);
      }
      var listed := reply.(playerList := Some(Strip(roster)));

      var lookup := PullRoomData(rooms, cards, code, faults);
      if lookup.LookupFailed? {
        return Fail("game started", listed, ProgressLookup);
      }
      if lookup.NoRoom? {
        return Fail("game started", listed, ProgressMissingRoom);
      }
      if lookup.LookupThrew? {
        return [];
      }
      emits := [Emit("questions progressed", Everyone(code), listed.(roomData := Some(lookup.data), success := true))];
    }
  }

  /**
   * RevealAnswer's scoring of a store whose roster was read: the loop's score UPDATEs, then the
   * broadcast of the scored roster, or the error of the UPDATE that failed.
   */
  method ScoreStore(b: Store, code: string, room: RoomData, faults: set<Fault>, failAt: nat)
    returns (table: PlayerTable, emits: seq<Emit>)
    requires RosterSelect !in faults && PullPlayerData(b.players, code) != []
    ensures SameSeats(b.players, table)
    ensures ScoreOutcome(b, b.(players := table), emits, code, room, faults, failAt)
  {
    var reply := Blank.(roomData := Some(room));
    var correct := room.correctAnswer;
    var pointer := room.currentPlayer;
    var roster := PullPlayerData(b.players, code);
    var n := NumberCorrect(roster, correct);

    var scored, stop;
    table, scored, stop := ScoreRows(b.players, roster, pointer, correct, n, if ScoreUpdate in faults then failAt else -1);
    if stop >= 0 {
      ScoreFoldPrefixRaises(b.players, code, pointer, correct, n, stop);
      return table, Fail("answer revealed", reply, if roster[stop].index == pointer then RevealActorScore else RevealPlayerScore);
    }
    ScoreFoldRoom(b.players, code, pointer, correct, n);
    ScoreRoomKeepsSeats(b.players, code, pointer, correct, n);
    reply := reply.(playerList := Some(Strip(scored)), success := true);
    emits := [Emit("answer revealed", Everyone(code), reply)];
  }

  /**
   * RevealAnswer's loop over the roster, one UPDATE per row that earns points. The UPDATE of
   * the row at position failAt, if that row earns points, fails: the loop stops there, at
   * stop, with the rows before it written.
   */
  method ScoreRows(players: PlayerTable, roster: seq<PlayerData>, pointer: int, correct: int, n: nat,
    failAt: int) returns (table: PlayerTable, scored: seq<PlayerData>, stop: int)
    ensures stop == (if 0 <= failAt < |roster| &&
      (roster[failAt].index == pointer || roster[failAt].choice == Some(correct)) then failAt else -1)
    ensures stop >= 0 ==> table == ScoreFold(players, roster[..stop], pointer, correct, n)
    ensures stop == -1 ==> table == ScoreFold(players, roster, pointer, correct, n)
    ensures stop == -1 ==> scored == ScoreRoster(roster, pointer, correct, n)
  {
    table := players;
    scored := roster;
    for i := 0 to |roster|
      invariant table == ScoreFold(players, roster[..i], pointer, correct, n)
      invariant ScoredUpTo(roster, scored, i, pointer, correct, n)
      invariant 0 <= failAt < i ==> roster[failAt].index != pointer && roster[failAt].choice != Some(correct)
    {
      var row := roster[i];
      assert roster[..i + 1][..i] == roster[..i];
      if row.index == pointer || row.choice == Some(correct) {
        if i == failAt {
          return table, scored, i;
        }
        var updatedScore := row.score + if row.index == pointer then n else 1;
        if row.key in table {
          table := table[row.key := table[row.key].(score := updatedScore)];
        }
        scored := scored[i := row.(score := updatedScore)];
      }
    }
    assert roster[..|roster|] == roster;
    stop := -1;
  }

  /** ScoreRows' roster after i rows: those rows carry their award, the rest are as read. */
  ghost predicate ScoredUpTo(roster: seq<PlayerData>, scored: seq<PlayerData>, i: int, pointer: int, correct: int, n: nat)
  {
    |scored| == |roster| &&
    (forall j :: 0 <= j < |roster| && j < i ==> scored[j] == roster[j].(score := roster[j].score + Award(roster[j].index, roster[j].choice, pointer, correct, n))) &&
    (forall j :: 0 <= j < |roster| && i <= j ==> scored[j] == roster[j])
  }

  /** An update that keeps every room and every seat, and draws no key, keeps the store consistent. */
  lemma KeepConsistent(s: Store, t: Store)
    requires Consistent(s)
    requires t.nextKey == s.nextKey
    requires t.rooms.Keys == s.rooms.Keys && forall c :: c in t.rooms ==> t.rooms[c].code == c
    requires SameSeats(s.players, t.players)
    ensures Consistent(t)
  {
    SameSeatsKeepTurns(s.players, t.players);
  }

  /** A new player table that keeps every seat keeps the store consistent. */
  lemma PlayersKeepConsistent(s: Store, t: PlayerTable)
    requires Consistent(s) && SameSeats(s.players, t)
    ensures Consistent(s.(players := t))
  {
    KeepConsistent(s, s.(players := t));
  }

  /** GenerateGame's inserts: a room under a fresh code, its creator under the next key. */
  lemma CreateKeepsConsistent(s: Store, code: string, room: Room, row: PlayerRow, sessions: seq<Session>)
    requires Consistent(s)
    requires code !in s.rooms && room.code == code && row.roomCode == code
    ensures Consistent(Store(s.rooms[code := room], s.players[s.nextKey := row], sessions, s.nextKey + 1))
    ensures RoomKeys(s.players[s.nextKey := row], code) == {s.nextKey}
  {
    forall k | k in s.players
      ensures s.players[k].roomCode != code && k != s.nextKey
    {
    }
  }

  /** JoinGame's shift of a room's indices keeps the store consistent. */
  lemma ShiftKeepsConsistent(s: Store, code: string, from: int)
    requires Consistent(s)
    ensures Consistent(s.(players := ShiftUp(s.players, code, from)))
    ensures forall k :: k in s.players && s.players[k].roomCode == code ==> ShiftUp(s.players, code, from)[k].index != from
  {
    ShiftUpKeepsTurns(s.players, code, from);
  }

  /** JoinGame's insert: a row of an existing room, at an index no row of that room holds, under the next key. */
  lemma InsertKeepsConsistent(s: Store, row: PlayerRow, sessions: seq<Session>)
    requires Consistent(s) && row.roomCode in s.rooms
    requires forall k :: k in s.players && s.players[k].roomCode == row.roomCode ==> s.players[k].index != row.index
    ensures Consistent(Store(s.rooms, s.players[s.nextKey := row], sessions, s.nextKey + 1))
  {
  }

}
