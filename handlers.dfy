/**
 * What each socket handler does, stated as a relation between the store before the event,
 * the store after it and the emits it sends (the files under src/handlers). The GameServer class
 * implements these step by step; the helpers here are the in-memory lookups the handlers
 * run on the session list and the room-code generator.
 */
module Handlers {
  import opened Options
  import opened Text
  import opened Tables
  import opened Sanitizer
  import opened Rules
  import opened Messages
  import opened Errors

  /** Everything a handler may change: the room and player tables, the session list and the next key. */
  datatype Store = Store(rooms: RoomTable, players: PlayerTable, sessions: seq<Session>, nextKey: int)

  // ---------------------------------------------------------------- the session list

  /** allPlayers.find on key and secret: the first matching entry, or -1. */
  function FindSession(sessions: seq<Session>, key: int, secret: string): (i: int)
    ensures -1 <= i < |sessions|
    ensures i >= 0 ==> sessions[i].key == key && sessions[i].secret == secret
    ensures i >= 0 ==> forall j :: 0 <= j < i ==> !(sessions[j].key == key && sessions[j].secret == secret)
    ensures i == -1 <==> forall j :: 0 <= j < |sessions| ==> !(sessions[j].key == key && sessions[j].secret == secret)
  {
    if sessions == [] then -1
    else if sessions[0].key == key && sessions[0].secret == secret then 0
    else
      var i := FindSession(sessions[1..], key, secret);
      if i == -1 then -1 else i + 1
  }

  /** allPlayers.find on the socket id: the first matching entry, or -1. */
  function FindSocket(sessions: seq<Session>, socket: string): (i: int)
    ensures -1 <= i < |sessions|
    ensures i >= 0 ==> sessions[i].socket == socket && forall j :: 0 <= j < i ==> sessions[j].socket != socket
    ensures i == -1 <==> forall j :: 0 <= j < |sessions| ==> sessions[j].socket != socket
  {
    if sessions == [] then -1
    else if sessions[0].socket == socket then 0
    else
      var i := FindSocket(sessions[1..], socket);
      if i == -1 then -1 else i + 1
  }

  /**
   * The session list after a rejoin: the first entry holding the key and secret gets the new
   * socket, or, when there is none, one entry is appended; no other entry changes.
   */
  function Rebind(sessions: seq<Session>, socket: string, key: int, secret: string): (r: seq<Session>)
    ensures FindSession(sessions, key, secret) >= 0 ==> |r| == |sessions|
    ensures FindSession(sessions, key, secret) == -1 ==> |r| == |sessions| + 1 && r[|sessions|] == Session(socket, key, secret)
    ensures forall j :: 0 <= j < |sessions| && j != FindSession(sessions, key, secret) ==> r[j] == sessions[j]
    ensures FindSession(r, key, secret) >= 0 && r[FindSession(r, key, secret)] == Session(socket, key, secret)
  {
    var i := FindSession(sessions, key, secret);
    var r := if i >= 0 then sessions[i := sessions[i].(socket := socket)] else sessions + [Session(socket, key, secret)];
    FirstSessionAt(r, key, secret, if i >= 0 then i else |sessions|);
    r
  }

  lemma FirstSessionAt(sessions: seq<Session>, key: int, secret: string, i: int)
    requires 0 <= i < |sessions| && sessions[i].key == key && sessions[i].secret == secret
    requires forall j :: 0 <= j < i ==> !(sessions[j].key == key && sessions[j].secret == secret)
    ensures FindSession(sessions, key, secret) == i
  {
  }

  /** Rejoining twice from the same socket leaves the list as one rejoin did. */
  lemma RebindIdempotent(sessions: seq<Session>, socket: string, key: int, secret: string)
    ensures Rebind(Rebind(sessions, socket, key, secret), socket, key, secret) == Rebind(sessions, socket, key, secret)
  {
    var r := Rebind(sessions, socket, key, secret);
    var i := FindSession(sessions, key, secret);
    FirstSessionAt(r, key, secret, if i >= 0 then i else |sessions|);
  }

  // ---------------------------------------------------------------- room codes

  /** String.fromCharCode(Math.floor(Math.random() * 26) + 65) per digit, each digit standing for a random draw. */
  function CodeOf(digits: seq<nat>): (code: string)
    ensures |code| == |digits|
    ensures forall i :: 0 <= i < |code| ==> 'A' <= code[i] <= 'Z'
  {
    seq(|digits|, i requires 0 <= i < |digits| => (65 + digits[i] % 26) as char)
  }

  /** Every code of capital letters is generated by some draws: the parameters hide no code. */
  lemma CodeOfCoversLetters(code: string)
    requires forall i :: 0 <= i < |code| ==> 'A' <= code[i] <= 'Z'
    ensures exists digits :: CodeOf(digits) == code
  {
    var digits: seq<nat> := seq(|code|, i requires 0 <= i < |code| => code[i] as nat - 65);
    forall i | 0 <= i < |code| ensures CodeOf(digits)[i] == code[i] {
      ModOfSmaller(digits[i], 26);
    }
    assert CodeOf(digits) == code;
  }

  /** The attempt the generation loop stops at: the first whose code no room holds. */
  function FirstFresh(attempts: seq<seq<nat>>, rooms: RoomTable): (i: nat)
    requires exists j :: 0 <= j < |attempts| && CodeOf(attempts[j]) !in rooms
    ensures i < |attempts| && CodeOf(attempts[i]) !in rooms
    ensures forall j :: 0 <= j < i ==> CodeOf(attempts[j]) in rooms
  {
    if CodeOf(attempts[0]) !in rooms then 0
    else
      var j :| 0 <= j < |attempts| && CodeOf(attempts[j]) !in rooms;
      assert CodeOf(attempts[1..][j - 1]) !in rooms;
      1 + FirstFresh(attempts[1..], rooms)
  }

  // ---------------------------------------------------------------- credentials

  /** JoinGame's redirect: a truthy key and secret that FindExistingPlayer finds in the player table. */
  predicate Returning(players: PlayerTable, data: Cleaned, faults: set<Fault>)
  {
    var key := IntField(data, "playerKey");
    var secret := TextField(data, "playerSecret");
    key != 0 && secret != "" && PlayerLookup !in faults && key in players && players[key].secret == secret
  }

  /** The rejoinData object JoinGame passes on. */
  function RejoinInput(key: int, secret: string): (input: Input)
    ensures Get(input, "playerKey") == Num(key as real) && Get(input, "playerSecret") == Str(secret)
    ensures forall name :: name !in {"playerKey", "playerSecret"} ==> Get(input, name) == Undefined
  {
    map["playerKey" := Num(key as real), "playerSecret" := Str(secret)]
  }

  /** playerList.find on key and secret: the first roster row holding both, or -1. */
  function FindPlayer(roster: seq<PlayerData>, key: int, secret: string): (i: int)
    ensures -1 <= i < |roster|
    ensures i >= 0 ==> roster[i].key == key && roster[i].secret == Some(secret)
    ensures i == -1 <==> forall j :: 0 <= j < |roster| ==> !(roster[j].key == key && roster[j].secret == Some(secret))
  {
    if roster == [] then -1
    else if roster[0].key == key && roster[0].secret == Some(secret) then 0
    else
      var i := FindPlayer(roster[1..], key, secret);
      if i == -1 then -1 else i + 1
  }

  /** Start's requester check on the room's roster holds exactly for a player of that room with that secret. */
  lemma FindPlayerInRoom(players: PlayerTable, code: string, key: int, secret: string)
    ensures FindPlayer(PullPlayerData(players, code), key, secret) >= 0 <==>
      key in players && players[key].roomCode == code && players[key].secret == secret
  {
    var roster := PullPlayerData(players, code);
    if key in players && players[key].roomCode == code && players[key].secret == secret {
      var i :| 0 <= i < |roster| && roster[i].key == key;
      assert roster[i].secret == Some(secret);
    }
  }

  // ---------------------------------------------------------------- the scoring loop

  /** The roster after RevealAnswer's loop: each row's score raised by its award. */
  function ScoreRoster(roster: seq<PlayerData>, pointer: int, correct: int, n: nat): (r: seq<PlayerData>)
    ensures |r| == |roster|
    ensures forall i :: 0 <= i < |r| ==> r[i] == roster[i].(score := r[i].score) && r[i].score >= roster[i].score
  {
    seq(|roster|, i requires 0 <= i < |roster| =>
      roster[i].(score := roster[i].score + Award(roster[i].index, roster[i].choice, pointer, correct, n)))
  }

  /** The first roster row the loop writes a score for (the actor or a correct guesser), or -1. */
  function FirstScored(roster: seq<PlayerData>, pointer: int, correct: int): (i: int)
    ensures -1 <= i < |roster|
    ensures i >= 0 ==> roster[i].index == pointer || roster[i].choice == Some(correct)
    ensures forall j :: 0 <= j < |roster| && (i == -1 || j < i) ==> roster[j].index != pointer && roster[j].choice != Some(correct)
  {
    if roster == [] then -1
    else if roster[0].index == pointer || roster[0].choice == Some(correct) then 0
    else
      var i := FirstScored(roster[1..], pointer, correct);
      if i == -1 then -1 else i + 1
  }

  // ---------------------------------------------------------------- the handlers' outcomes
  //
  // Each handler's outcome is split where the handler passes a stage: first SanitizeData,
  // then the handler's own checks and updates. A stage's predicate describes everything
  // from that point on.

  /** GenerateGame (src/handlers/GenerateGame.ts). */
  ghost predicate GenerateOutcome(b: Store, a: Store, emits: seq<Emit>, socket: string, input: Input,
    faults: set<Fault>, rawSecret: string, attempts: seq<seq<nat>>)
    requires exists j :: 0 <= j < |attempts| && CodeOf(attempts[j]) !in b.rooms
  {
    match Sanitize(input, ["playerName"], b.players, VerifyCount in faults)
    case Err(msg) => a == b && emits == Fail("game created", Blank, CreateUnclean + msg)
    case Ok(data) => CreateOutcome(b, a, emits, socket, data, faults, rawSecret, attempts)
  }

  /** GenerateGame once the input is clean: the room and its creator are inserted. */
  ghost predicate CreateOutcome(b: Store, a: Store, emits: seq<Emit>, socket: string, data: Cleaned,
    faults: set<Fault>, rawSecret: string, attempts: seq<seq<nat>>)
    requires exists j :: 0 <= j < |attempts| && CodeOf(attempts[j]) !in b.rooms
  {
    if TextField(data, "playerName") == "" then
      a == b && emits == Fail("game created", Blank, CreateNoName)
    else
      var name := Take(TextField(data, "playerName"), 12);
      var secret := Keep(rawSecret, IsAlnum);
      var reply := Blank.(playerSecret := Some(secret));
      if RoomCount in faults then
        a == b && emits == Fail("game created", reply, CreateCodeCheck)
      else
        var code := CodeOf(attempts[FirstFresh(attempts, b.rooms)]);
        var key := b.nextKey;
        a == Store(b.rooms[code := Room(code, 1, -1, 0, false)], b.players[key := NewRow(code, 1, name, secret)],
          b.sessions + [Session(socket, key, secret)], key + 1) &&
        CreateAnnounced(emits, code, key, name, secret, faults)
  }

  /** GenerateGame's last step: the new room, with its creator as the only player, to the creator. */
  ghost predicate CreateAnnounced(emits: seq<Emit>, code: string, key: int, name: string, secret: string, faults: set<Fault>)
  {
    var created := Blank.(playerSecret := Some(secret), playerKey := Some(key),
      roomData := Some(RoomData(code, 0, 1, -1, false, 0, None)));
    if RosterSelect in faults then
      emits == Fail("game created", created, CreateRoster)
    else
      emits == [Emit("game created", Sender, created.(success := true,
        playerList := Some([PlayerData(name, 1, key, None, 0, true, Some(secret))])))]
  }

  /** RejoinGame (src/handlers/RejoinGame.ts). */
  ghost predicate RejoinOutcome(cards: CardTable, b: Store, a: Store, emits: seq<Emit>, socket: string,
    input: Input, faults: set<Fault>)
  {
    match Sanitize(input, ["playerKey", "playerSecret"], b.players, VerifyCount in faults)
    case Err(msg) => a == b && emits == Fail("game rejoined", Blank, RejoinUnclean + msg)
    case Ok(data) =>
      ReturnOutcome(cards, b, a, emits, socket, IntField(data, "playerKey"), TextField(data, "playerSecret"), faults)
  }

  /** RejoinGame once the input is clean: the session is rebound, then the player re-activated. */
  ghost predicate ReturnOutcome(cards: CardTable, b: Store, a: Store, emits: seq<Emit>, socket: string,
    key: int, secret: string, faults: set<Fault>)
  {
    var reply := Blank.(playerKey := Some(key));
    var rebound := b.(sessions := Rebind(b.sessions, socket, key, secret));
    var room := PullRoomCode(b.players, key, secret, RoomCodeSelect in faults);
    if room.None? || room.value == "" then
      a == rebound &&
      emits == Fail("game rejoined", reply, RejoinNoRoom)
    else if ActiveSet in faults then
      a == rebound && emits == Fail("game rejoined", reply, RejoinActivate)
    else
      a == rebound.(players := b.players[key := b.players[key].(active := true)]) &&
      ReturnAnnounced(cards, a, emits, room.value, key, faults)
  }

  /** RejoinGame's last step: the room's roster and room data, to the others and to the sender. */
  ghost predicate ReturnAnnounced(cards: CardTable, s: Store, emits: seq<Emit>, code: string, key: int, faults: set<Fault>)
  {
    var reply := Blank.(playerKey := Some(key));
    var roster := PullPlayerData(s.players, code);
    if RosterSelect in faults || roster == [] then
      emits == Fail("game rejoined", reply, RejoinRoster)
    else
      var listed := reply.(playerList := Some(Strip(roster)));
      match PullRoomData(s.rooms, cards, code, faults)
      case LookupFailed => emits == Fail("game rejoined", listed, RejoinLookup)
      case NoRoom => emits == Fail("game rejoined", listed, RejoinMissingRoom)
      case LookupThrew => emits == []
      case Found(data) =>
        var done := listed.(roomData := Some(data), success := true);
        emits == [Emit("player joined", Others(code), done), Emit("game rejoined", Sender, done)]
  }

  /** JoinGame (src/handlers/JoinGame.ts). */
  ghost predicate JoinOutcome(cards: CardTable, b: Store, a: Store, emits: seq<Emit>, socket: string,
    input: Input, faults: set<Fault>, secret: string)
  {
    match Sanitize(input, ["playerName", "roomCode"], b.players, VerifyCount in faults)
    case Err(msg) => a == b && emits == Fail("game joined", Blank, CreateUnclean + msg)
    case Ok(data) =>
      if TextField(data, "playerName") == "" || TextField(data, "roomCode") == "" then
        a == b && emits == Fail("game joined", Blank, JoinMissing)
      else if Returning(b.players, data, faults) then
        RejoinOutcome(cards, b, a, emits, socket, RejoinInput(IntField(data, "playerKey"), TextField(data, "playerSecret")), faults)
      else
        SeatOutcome(cards, b, a, emits, socket, Take(TextField(data, "playerName"), 12),
          ToUpper(TextField(data, "roomCode")), faults, secret)
  }

  /** JoinGame for a new player with a normalised name and room code: find the room, then seat the player. */
  ghost predicate SeatOutcome(cards: CardTable, b: Store, a: Store, emits: seq<Emit>, socket: string,
    name: string, code: string, faults: set<Fault>, secret: string)
  {
    match PullRoomData(b.rooms, cards, code, faults)
    case LookupFailed => a == b && emits == Fail("game joined", Blank, JoinLookup)
    case NoRoom => a == b && emits == Fail("game joined", Blank, JoinMissingRoom)
    case LookupThrew => a == b && emits == []
    case Found(data) => PlaceOutcome(b, a, emits, socket, name, code, data, faults, secret)
  }

  /** JoinGame's choice of the newcomer's index: after the last one when the pointer is 1, else the pointer's. */
  ghost predicate PlaceOutcome(b: Store, a: Store, emits: seq<Emit>, socket: string, name: string, code: string,
    data: RoomData, faults: set<Fault>, secret: string)
    requires code in b.rooms
  {
    if MaxIndexSelect in faults then
      a == b && emits == Fail("game joined", Blank, JoinMaxIndex)
    else
      var index := JoinIndex(b.players, code, data.currentPlayer);
      if data.currentPlayer == 1 then InsertOutcome(b, a, emits, socket, name, code, index, data, faults, secret)
      else ShiftOutcome(b, a, emits, socket, name, code, data, index, faults, secret)
  }

  /**
   * JoinGame's two updates when the pointer is not 1: the room's indices from the pointer on
   * move up by one, and so does the pointer; then the newcomer takes index.
   */
  ghost predicate ShiftOutcome(b: Store, a: Store, emits: seq<Emit>, socket: string, name: string, code: string,
    data: RoomData, index: int, faults: set<Fault>, secret: string)
    requires code in b.rooms
  {
    if IndexShift in faults then
      a == b && emits == Fail("game joined", Blank, JoinShift)
    else
      PointerOutcome(b.(players := ShiftUp(b.players, code, data.currentPlayer)), a, emits, socket, name, code, data, index, faults, secret)
  }

  /** JoinGame's second update when the pointer is not 1: the pointer moves up by one; then the newcomer takes index. */
  ghost predicate PointerOutcome(b: Store, a: Store, emits: seq<Emit>, socket: string, name: string, code: string,
    data: RoomData, index: int, faults: set<Fault>, secret: string)
    requires code in b.rooms
  {
    var p := data.currentPlayer;
    if PointerIncrement in faults then
      a == b && emits == Fail("game joined", Blank, JoinPointerMove)
    else
      InsertOutcome(b.(rooms := b.rooms[code := b.rooms[code].(currentPlayer := p + 1)]), a, emits, socket,
        name, code, index, data.(currentPlayer := p + 1), faults, secret)
  }

  /** JoinGame's insert of the newcomer under the next key, its session entry, and the announcement. */
  ghost predicate InsertOutcome(b: Store, a: Store, emits: seq<Emit>, socket: string, name: string, code: string,
    index: int, room: RoomData, faults: set<Fault>, secret: string)
  {
    if PlayerInsert in faults then
      a == b && emits == Fail("game joined", Blank, JoinInsert)
    else
      var key := b.nextKey;
      a == Store(b.rooms, b.players[key := NewRow(code, index, name, secret)], b.sessions + [Session(socket, key, secret)], key + 1) &&
      JoinAnnounced(a.players, emits, code, key, room, faults, secret)
  }

  /** JoinGame's last step: the room's new roster to the others, and with the secret to the newcomer. */
  ghost predicate JoinAnnounced(players: PlayerTable, emits: seq<Emit>, code: string, key: int, room: RoomData,
    faults: set<Fault>, secret: string)
  {
    var reply := Blank.(playerKey := Some(key));
    var roster := PullPlayerData(players, code);
    if RosterSelect in faults || roster == [] then
      emits == Fail("game joined", reply, JoinRoster)
    else
      var joined := reply.(playerList := Some(Strip(roster)), roomData := Some(room), success := true);
      emits == [Emit("player joined", Others(code), joined), Emit("game joined", Sender, joined.(playerSecret := Some(secret)))]
  }

  /** LeaveGame (src/handlers/LeaveGame.ts). */
  ghost predicate LeaveOutcome(b: Store, a: Store, emits: seq<Emit>, input: Input, faults: set<Fault>)
  {
    match Sanitize(input, ["playerKey", "playerSecret"], b.players, VerifyCount in faults)
    case Err(msg) => a == b && emits == Fail("game left", Blank, LeaveUnclean + msg)
    case Ok(data) => DepartOutcome(b, a, emits, data, faults)
  }

  /** LeaveGame once the input is clean: the row is deleted and the others told. */
  ghost predicate DepartOutcome(b: Store, a: Store, emits: seq<Emit>, data: Cleaned, faults: set<Fault>)
  {
    if IntField(data, "playerKey") == 0 || TextField(data, "playerSecret") == "" then
      a == b && emits == Fail("game left", Blank, MissingCredentials)
    else
      var key := IntField(data, "playerKey");
      var secret := TextField(data, "playerSecret");
      var reply := Blank.(playerKey := Some(key));
      var room := PullRoomCode(b.players, key, secret, RoomCodeSelect in faults);
      if room.None? || room.value == "" then
        a == b && emits == Fail("game left", reply, LeaveNoRoom)
      else if PlayerDelete in faults then
        a == b && emits == Fail("game left", reply, LeaveDelete)
      else
        a == b.(players := b.players - {key}) &&
        var roster := PullPlayerData(a.players, room.value);
        if RosterSelect in faults || roster == [] then
          emits == Fail("game left", reply, LeaveRoster)
        else
          var done := reply.(playerList := Some(Strip(roster)), success := true);
          emits == [Emit("game left", Sender, done), Emit("player left", Others(room.value), done)]
  }

  /** RemovePlayer, run when a socket disconnects (src/handlers/RemovePlayer.ts). */
  ghost predicate RemoveOutcome(b: Store, a: Store, emits: seq<Emit>, socket: string, faults: set<Fault>)
  {
    var i := FindSocket(b.sessions, socket);
    if i == -1 || b.sessions[i].key == 0 then
      a == b && emits == []
    else
      var key := b.sessions[i].key;
      var reply := Blank.(playerKey := Some(key));
      if InactiveSet in faults then
        a == b && emits == Fail("player disconnected", reply, RemoveDeactivate)
      else
        a == b.(players := if key in b.players then b.players[key := b.players[key].(active := false)] else b.players) &&
        if PlayerRoomSelect in faults then
          emits == Fail("player disconnected", reply, RemoveRoomCheck)
        else if key !in b.players then
          emits == []
        else
          var roster := PullPlayerData(a.players, b.players[key].roomCode);
          if RosterSelect in faults || roster == [] then
            emits == Fail("player disconnected", reply, RemoveRoster)
          else
            emits == [Emit("player disconnected", Others(b.players[key].roomCode),
              reply.(playerList := Some(Strip(roster)), success := true))]
  }

  /** The value a guess stores: NULL for a null questionIndex, else the number. */
  function ChoiceOf(c: Clean): Option<int>
  {
    if c.Int? then Some(c.n) else None
  }

  /** UPDATE player SET choice = .. WHERE player_key = key AND secret = secret. */
  function SetChoice(players: PlayerTable, key: int, secret: string, choice: Option<int>): (r: PlayerTable)
    ensures r.Keys == players.Keys
    ensures forall k :: k in players && !(k == key && players[k].secret == secret) ==> r[k] == players[k]
    ensures key in players && players[key].secret == secret ==> r[key] == players[key].(choice := choice)
  {
    if key in players && players[key].secret == secret then players[key := players[key].(choice := choice)] else players
  }

  /** The room a guess is broadcast to: the roomCode as passed on, "null" and "undefined" included. */
  function GuessRoom(data: Cleaned): string
  {
    if "roomCode" !in data then "undefined"
    else match data["roomCode"]
      case Text(s) => s
      case _ => "null"
  }

  /**
   * The choice update both RegisterGuess versions make, then what follows it. A missing
   * questionIndex makes the UPDATE's SQL invalid, so the handler stops there.
   */
  ghost predicate GuessStored(b: Store, a: Store, emits: seq<Emit>, data: Cleaned, faults: set<Fault>, broadcast: bool)
  {
    if "questionIndex" !in data then
      a == b && emits == []
    else if GuessUpdate in faults then
      a == b && emits == Fail("guess made", Blank, GuessStore)
    else
      a == b.(players := SetChoice(b.players, IntField(data, "playerKey"), TextField(data, "playerSecret"),
        ChoiceOf(data["questionIndex"]))) &&
      if !broadcast then emits == []
      else
        var code := GuessRoom(data);
        var roster := PullPlayerData(a.players, code);
        if RosterSelect in faults || roster == [] then
          emits == Fail("guess made", Blank, GuessRoster)
        else
          emits == [Emit("guess made", Everyone(code), Blank.(playerList := Some(Strip(roster)), success := true))]
  }

  /** RegisterGuess (src/handlers/RegisterGuess.ts): the roster is sent only when a roomCode came. */
  ghost predicate GuessOutcome(b: Store, a: Store, emits: seq<Emit>, input: Input, faults: set<Fault>)
  {
    match Sanitize(input, ["playerKey", "playerSecret"], b.players, VerifyCount in faults)
    case Err(msg) => a == b && emits == Fail("guess made", Blank, GuessUnclean + msg)
    case Ok(data) =>
      if IntField(data, "playerKey") == 0 || TextField(data, "playerSecret") == "" then
        a == b && emits == Fail("guess made", Blank, MissingCredentials)
      else
        GuessStored(b, a, emits, data, faults, "roomCode" in data)
  }

  /** RegisterGuess in index.js: no credential check, and the roster is always sent. */
  ghost predicate LegacyGuessOutcome(b: Store, a: Store, emits: seq<Emit>, input: Input, faults: set<Fault>)
  {
    match Sanitize(input, ["playerKey", "playerSecret"], b.players, VerifyCount in faults)
    case Err(msg) => a == b && emits == Fail("guess made", Blank, GuessUnclean + msg)
    case Ok(data) => GuessStored(b, a, emits, data, faults, true)
  }

  /** StartGame (src/handlers/StartGame.ts). */
  ghost predicate StartOutcome(cards: CardTable, b: Store, a: Store, emits: seq<Emit>, input: Input,
    faults: set<Fault>, cardPick: nat, answerPick: nat)
  {
    match Sanitize(input, ["roomCode", "playerKey", "playerSecret"], b.players, VerifyCount in faults)
    case Err(msg) => a == b && emits == Fail("game started", Blank, StartUnclean + msg)
    case Ok(data) =>
      if TextField(data, "roomCode") == "" || IntField(data, "playerKey") == 0 || TextField(data, "playerSecret") == "" then
        a == b && emits == Fail("game started", Blank, StartMissing)
      else
        LaunchOutcome(cards, b, a, emits, TextField(data, "roomCode"), IntField(data, "playerKey"),
          TextField(data, "playerSecret"), faults, cardPick, answerPick)
  }

  /** StartGame's checks on the room and the requester. */
  ghost predicate LaunchOutcome(cards: CardTable, b: Store, a: Store, emits: seq<Emit>, code: string, key: int,
    secret: string, faults: set<Fault>, cardPick: nat, answerPick: nat)
  {
    var roster := PullPlayerData(b.players, code);
    if CardKeySelect in faults then
      a == b && emits == Fail("game started", Blank, StartCardCheck)
    else if code !in b.rooms then
      a == b && emits == Fail("game started", Blank, StartNoRoom)
    else if b.rooms[code].cardKey != -1 then
      a == b && emits == []
    else if RosterSelect in faults || roster == [] then
      a == b && emits == Fail("game started", Blank, StartRoster)
    else if FindPlayer(roster, key, secret) == -1 then
      a == b && emits == Fail("game started", Blank, StartStranger)
    else
      FirstRoundOutcome(cards, b, a, emits, code, Blank.(playerList := Some(Strip(roster))), faults, cardPick, answerPick)
  }

  /** StartGame once the requester is known to be in the room: the first actor, card and answer. */
  ghost predicate FirstRoundOutcome(cards: CardTable, b: Store, a: Store, emits: seq<Emit>, code: string,
    reply: Reply, faults: set<Fault>, cardPick: nat, answerPick: nat)
    requires code in b.rooms
  {
    if MinIndexSelect in faults || MinActiveIndex(b.players, code).None? then
      a == b && emits == Fail("game started", reply, StartNoPlayers)
    else if CardDraw in faults then
      a == b && emits == Fail("game started", reply, StartCard)
    else if DrawCard(cards, {}, cardPick).None? then
      a == b && emits == []
    else
      var card := DrawCard(cards, {}, cardPick).value;
      var drawn := reply.(card := Some(card));
      if QuestionSelect in faults then
        a == b && emits == Fail("game started", drawn, StartQuestions)
      else
        var asked := drawn.(questions := Some(cards[card]));
        if RoundStart in faults then
          a == b && emits == Fail("game started", asked,
            StartRound)
        else
          a == b.(rooms := b.rooms[code := b.rooms[code].(currentPlayer := MinActiveIndex(b.players, code).value,
            cardKey := card, questionIndex := DrawAnswer(|cards[card]|, answerPick))]) &&
          match PullRoomData(a.rooms, cards, code, faults)
          case LookupFailed => emits == Fail("game started", asked, StartLookup)
          case NoRoom => emits == Fail("game started", asked, StartMissingRoom)
          case LookupThrew => emits == []
          case Found(data) =>
            emits == [Emit("game started", Everyone(code), asked.(roomData := Some(data), success := true))]
  }

  /**
   * RevealAnswer (src/handlers/RevealAnswer.ts). When ScoreUpdate is among the faults, failAt
   * is the roster position whose score UPDATE the database rejects.
   */
  ghost predicate RevealOutcome(cards: CardTable, b: Store, a: Store, emits: seq<Emit>, input: Input, faults: set<Fault>,
    failAt: nat)
  {
    match Sanitize(input, ["playerKey", "playerSecret", "roomCode"], b.players, VerifyCount in faults)
    case Err(msg) => a == b && emits == Fail("answer revealed", Blank, RevealUnclean + msg)
    case Ok(data) =>
      if IntField(data, "playerKey") == 0 || TextField(data, "playerSecret") == "" || TextField(data, "roomCode") == "" then
        a == b && emits == Fail("answer revealed", Blank, MissingRoomCredentials)
      else
        MarkOutcome(cards, b, a, emits, TextField(data, "roomCode"), faults, failAt)
  }

  /** RevealAnswer's UPDATE of the room's revealed flag and its read of the room. */
  ghost predicate MarkOutcome(cards: CardTable, b: Store, a: Store, emits: seq<Emit>, code: string, faults: set<Fault>,
    failAt: nat)
  {
    if RevealUpdate in faults then
      a == b && emits == Fail("answer revealed", Blank, RevealSet)
    else
      var revealed := b.(rooms := if code in b.rooms then b.rooms[code := b.rooms[code].(revealed := true)] else b.rooms);
      match PullRoomData(revealed.rooms, cards, code, faults)
      case LookupFailed => a == revealed && emits == Fail("answer revealed", Blank, RevealLookup)
      case NoRoom => a == revealed && emits == Fail("answer revealed", Blank, RevealMissingRoom)
      case LookupThrew => a == revealed && emits == []
      case Found(room) => ScoreOutcome(revealed, a, emits, code, room, faults, failAt)
  }

  /**
   * RevealAnswer's scoring over the room's roster, from the room data just read. A rejected
   * score UPDATE at roster position failAt ends the handler with the rows before it written.
   */
  ghost predicate ScoreOutcome(b: Store, a: Store, emits: seq<Emit>, code: string, room: RoomData, faults: set<Fault>,
    failAt: nat)
  {
    var reply := Blank.(roomData := Some(room));
    var roster := PullPlayerData(b.players, code);
    if RosterSelect in faults || roster == [] then
      a == b && emits == Fail("answer revealed", reply, RevealRoster)
    else
      var pointer := room.currentPlayer;
      var correct := room.correctAnswer;
      var n := NumberCorrect(roster, correct);
      if ScoreUpdate in faults && failAt < |roster| &&
        (roster[failAt].index == pointer || roster[failAt].choice == Some(correct))
      then
        a == b.(players := ScoreFold(b.players, roster[..failAt], pointer, correct, n)) &&
        emits == Fail("answer revealed", reply,
          if roster[failAt].index == pointer then RevealActorScore
          else RevealPlayerScore)
      else
        a == b.(players := ScoreRoom(b.players, code, pointer, correct, n)) &&
        emits == [Emit("answer revealed", Everyone(code),
          reply.(playerList := Some(Strip(ScoreRoster(roster, pointer, correct, n))), success := true))]
  }

  /** ProgressQuestions (src/handlers/ProgressQuestions.ts). */
  ghost predicate ProgressOutcome(cards: CardTable, b: Store, a: Store, emits: seq<Emit>, input: Input,
    faults: set<Fault>, cardPick: nat, answerPick: nat)
  {
    match Sanitize(input, ["playerKey", "playerSecret", "roomCode"], b.players, VerifyCount in faults)
    case Err(msg) => a == b && emits == Fail("questions progressed", Blank, ProgressUnclean + msg)
    case Ok(data) =>
      if IntField(data, "playerKey") == 0 || TextField(data, "playerSecret") == "" || TextField(data, "roomCode") == "" then
        a == b && emits == Fail("questions progressed", Blank, MissingRoomCredentials)
      else
        DrawOutcome(cards, b, a, emits, TextField(data, "roomCode"), faults, cardPick, answerPick)
  }

  /** ProgressQuestions' choice of the next actor, card and answer. */
  ghost predicate DrawOutcome(cards: CardTable, b: Store, a: Store, emits: seq<Emit>, code: string,
    faults: set<Fault>, cardPick: nat, answerPick: nat)
  {
    if CurrentPlayerSelect in faults || code !in b.rooms then
      a == b && emits == Fail("questions progressed", Blank, ProgressActor)
    else if ActiveIndexSelect in faults || RoomIndices(b.players, code, true) == [] then
      a == b && emits == Fail("questions progressed", Blank, ProgressIndices)
    else
      var room := b.rooms[code];
      var next := NextActor(Ascending(RoomIndices(b.players, code, true)), room.currentPlayer);
      var reply := Blank.(currentPlayerIndex := Some(next));
      var draw := DrawCard(cards, {room.cardKey}, cardPick);
      if CardDraw in faults || draw.None? then
        a == b && emits == Fail("questions progressed", reply, ProgressCard)
      else if QuestionSelect in faults || cards[draw.value] == [] then
        a == b && emits == Fail("questions progressed", reply.(card := Some(draw.value)),
          ProgressQuestionList)
      else
        var answer := DrawAnswer(|cards[draw.value]|, answerPick);
        NextRoundOutcome(cards, b, a, emits, code, next, draw.value, answer,
          reply.(card := Some(draw.value), questions := Some(cards[draw.value]), questionIndex := Some(answer)), faults)
  }

  /** ProgressQuestions' writes: the room's new round, the cleared choices, then the broadcast. */
  ghost predicate NextRoundOutcome(cards: CardTable, b: Store, a: Store, emits: seq<Emit>, code: string,
    next: int, card: int, answer: int, reply: Reply, faults: set<Fault>)
    requires code in b.rooms
  {
    var moved := b.(rooms := b.rooms[code := b.rooms[code].(revealed := false, cardKey := card,
      questionIndex := answer, currentPlayer := next)]);
    if RoundUpdate in faults then
      a == b && emits == Fail("questions progressed", reply,
        ProgressRound)
    else if ChoiceReset in faults then
      a == moved && emits == Fail("questions progressed", reply, ProgressReset)
    else
      a == moved.(players := ResetChoices(b.players, code)) &&
      var roster := PullPlayerData(a.players, code);
      if RosterSelect in faults || roster == [] then
        emits == Fail("questions progressed", reply, ProgressRoster)
      else
        var listed := reply.(playerList := Some(Strip(roster)));
        match PullRoomData(a.rooms, cards, code, faults)
        case LookupFailed => emits == Fail("game started", listed, ProgressLookup)
        case NoRoom => emits == Fail("game started", listed, ProgressMissingRoom)
        case LookupThrew => emits == []
        case Found(data) =>
          emits == [Emit("questions progressed", Everyone(code), listed.(roomData := Some(data), success := true))]
  }
}
