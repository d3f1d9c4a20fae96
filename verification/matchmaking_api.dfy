/**
 * The side-effecting Steam matchmaking requests the lobby code issues,
 * recorded in call logs in the order they are issued.
 */
module Matchmaking {
  import opened Transport

  datatype MatchmakingCall =
    | CreateLobby(memberLimit: int)                          // CreateLobby(invisible, limit)
    | JoinLobby(lobby: PeerId)
    | LeaveLobby(lobby: PeerId)
    | SendChatMessage(lobby: PeerId, text: string)           // via `Chat.SendMessage`
    | SetLobbyData(lobby: PeerId, key: string, value: string)
    | SetLobbyMemberData(lobby: PeerId, key: string, value: string)
}
