/**
 * `LobbyEnterer`: at most one lobby-enter request in flight, and the mapping
 * of Steam's answer to success and a lobby id.
 */
module LobbyEnterers {
  import opened Transport
  import opened Matchmaking

  /** `EChatRoomEnterResponse.k_EChatRoomEnterResponseSuccess`. */
  const EnterResponseSuccess: int := 1

  /** What `OnLobbyEnter` reports for Steam's response code and I/O-failure flag. */
  function EnterOutcome(response: int, ioFailure: bool, lobbyId: PeerId): (bool, PeerId) {
    if response == EnterResponseSuccess && !ioFailure then (true, lobbyId) else (false, Nil)
  }

  /** Success, with the real lobby id, exactly on a Success response without I/O failure; otherwise (false, Nil). */
  lemma EnterOutcomeCases(response: int, ioFailure: bool, lobbyId: PeerId)
    ensures var (ok, id) := EnterOutcome(response, ioFailure, lobbyId);
      && (ok <==> response == EnterResponseSuccess && !ioFailure)
      && (ok ==> id == lobbyId)
      && (!ok ==> id == Nil)
  {
  }

  class LobbyEnterer {
    var isAwaitingResult: bool
    /** The matchmaking requests issued so far. */
    var calls: seq<MatchmakingCall>

    constructor ()
      ensures !isAwaitingResult && calls == []
    {
      isAwaitingResult := false;
      calls := [];
    }

    /** `Enter`: a join request is issued, and awaited, only when none is in flight. */
    method Enter(lobbyId: PeerId)
      modifies this
      ensures isAwaitingResult
      ensures old(isAwaitingResult) ==> calls == old(calls)
      ensures !old(isAwaitingResult) ==> calls == old(calls) + [JoinLobby(lobbyId)]
    {
      if !isAwaitingResult {
        calls := calls + [JoinLobby(lobbyId)];
        isAwaitingResult := true;
      }
    }

    /** `OnLobbyEnter`: reports the outcome and always stops awaiting. */
    method OnLobbyEnter(response: int, ioFailure: bool, lobbyId: PeerId) returns (success: bool, id: PeerId)
      modifies this
      ensures !isAwaitingResult
      ensures calls == old(calls)
      ensures (success, id) == EnterOutcome(response, ioFailure, lobbyId)
    {
      if response == EnterResponseSuccess && !ioFailure {
        success, id := true, lobbyId;
      } else {
        success, id := false, Nil;
      }
      isAwaitingResult := false;
    }
  }
}
