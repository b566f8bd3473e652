/**
 * The error texts the handlers send back, word for word, one constant per failure point.
 * The SanitizeData texts end in a space: the sanitizer's own message follows them.
 */
module Errors {

  // GenerateGame (src/handlers/GenerateGame.ts)
  const CreateUnclean := "SanitizeData failed when creating room. "
  const CreateNoName := "Missing playerName after sanitization."
  const CreateCodeCheck := "Couldn't check for existing room code."
  const CreateRoster := "Couldn't pull player list while generating room."

  // RejoinGame (src/handlers/RejoinGame.ts)
  const RejoinUnclean := "SanitizeData failed when rejoining game. "
  const RejoinNoRoom := "No roomcode results when looking up player key/secret pair for rejoining game."
  const RejoinActivate := "Couldn't update to Active when rejoining room."
  const RejoinRoster := "Couldn't pull player list while rejoining room."
  const RejoinLookup := "Error searching for room to rejoin."
  const RejoinMissingRoom := "Tried to rejoin a non-existant room."

  // JoinGame (src/handlers/JoinGame.ts)
  const JoinMissing := "Missing playerName or roomCode after sanitization."
  const JoinLookup := "Error searching for room to join."
  const JoinMissingRoom := "Tried to join a non-existant room."
  const JoinMaxIndex := "Couldn't pull current max index joining room."
  const JoinShift := "Couldn't update other player indexes while joining room."
  const JoinPointerMove := "Couldn't update room index while joining room."
  const JoinInsert := "Couldn't insert player into room while joining room."
  const JoinRoster := "Couldn't pull player list while joining room."

  // LeaveGame (src/handlers/LeaveGame.ts)
  const LeaveUnclean := "SanitizeData failed when leaving game. "
  const LeaveNoRoom := "Couldn't find player room as they left."
  const LeaveDelete := "Couldn't delete player as they left."
  const LeaveRoster := "Couldn't pull player list while reconnecting player."

  // RemovePlayer (src/handlers/RemovePlayer.ts)
  const RemoveDeactivate := "Couldn't set a player as inactive as they left."
  const RemoveRoomCheck := "Couldn't check room code key as someone left."
  const RemoveRoster := "Couldn't pull player list after a player left."

  // RegisterGuess (src/handlers/RegisterGuess.ts)
  const GuessUnclean := "SanitizeData failed when registering player's guess. "
  const GuessStore := "Couldn't registering player's guess."
  const GuessRoster := "Couldn't pull player list while registering guess."

  // StartGame (src/handlers/StartGame.ts)
  const StartUnclean := "SanitizeData failed when reconnecting player. "
  const StartMissing := "Missing roomCode, playerKey, or playerSecret after sanitization."
  const StartCardCheck := "Couldn't check game card key when starting game."
  const StartNoRoom := "Couldn't find room code when starting game."
  const StartRoster := "Couldn't pull player list while starting game."
  const StartStranger := "Couldn't find player in room requested to start."
  const StartNoPlayers := "No players found in the room when starting game."
  const StartCard := "Couldn't pick a random card when starting game."
  const StartQuestions := "Couldn't pull card questions when starting game."
  const StartRound := "Couldn't set the curent player, card key, or question answer for the room when starting game."
  const StartLookup := "Error searching for room to start."
  const StartMissingRoom := "Tried to start a non-existant room."

  // RevealAnswer (src/handlers/RevealAnswer.ts)
  const RevealUnclean := "SanitizeData failed while revealing answer. "
  const RevealSet := "Couldn't set question as revealed."
  const RevealLookup := "Error searching for room to reveal answer."
  const RevealMissingRoom := "Tried to reveal answer in a non-existant room."
  const RevealRoster := "Couldn't pull player list while revealing answer."
  const RevealActorScore := "Couldn't update actor score while revealing answer."
  const RevealPlayerScore := "Couldn't update player score while revealing answer."

  // ProgressQuestions (src/handlers/ProgressQuestions.ts)
  const ProgressUnclean := "SanitizeData failed while progressing question. "
  const ProgressActor := "Couldn't pull current player while progressing question."
  const ProgressIndices := "Couldn't pull current player indexs while progressing question."
  const ProgressCard := "Couldn't pull new card while progressing question."
  const ProgressQuestionList := "Couldn't pull questions while progressing question."
  const ProgressRound := "Couldn't update room with card and new actor data while progressing question."
  const ProgressReset := "Couldn't unset player answers while progressing question."
  const ProgressRoster := "Couldn't pull player list while progressing question."
  const ProgressLookup := "Error searching for room to progress."
  const ProgressMissingRoom := "Tried to progress a non-existant room."

  // credential checks shared by several handlers
  const MissingCredentials := "Missing playerKey or playerSecret after sanitization."
  const MissingRoomCredentials := "Missing playerKey, playerSecret, or roomCode after sanitization."
}
