/**
 * `LobbyCreator`: at most one lobby-creation request in flight, and the
 * mapping of Steam's answer to a `LobbyCreationResult` and a lobby id.
 */
module LobbyCreators {
  import opened Transport
  import opened Matchmaking

  type uint32 = x: int | 0 <= x < 0x1_0000_0000

  /** `(int)memberLimit`: C#'s unchecked conversion of a `uint` to a 32-bit `int`. */
  function ToInt32(u: uint32): (r: int)
    ensures -0x8000_0000 <= r < 0x8000_0000
    ensures r % 0x1_0000_0000 == u
    ensures u < 0x8000_0000 ==> r == u
  {
    if u < 0x8000_0000 then u else u - 0x1_0000_0000
  }

  /**
   * `LobbyCreationResult`: the named members of the enum, and any other
   * `EResult` code, which the cast in `OnLobbyCreated` keeps as a bare number.
   */
  datatype LobbyCreationResult =
    | Success | ServerError | NoConnection | AccessDenied | ServerTimeout | LimitExceeded
    | Unnamed(code: int)

  function Code(r: LobbyCreationResult): int {
    match r
    case Success => 1
    case ServerError => 2
    case NoConnection => 3
    case AccessDenied => 15
    case ServerTimeout => 16
    case LimitExceeded => 25
    case Unnamed(c) => c
  }

  /** `(LobbyCreationResult)code`: the cast keeps the number, so nothing is lost. */
  function FromCode(code: int): (r: LobbyCreationResult)
    ensures Code(r) == code
    ensures r.Unnamed? <==> code !in {1, 2, 3, 15, 16, 25}
  {
    if code == 1 then Success
    else if code == 2 then ServerError
    else if code == 3 then NoConnection
    else if code == 15 then AccessDenied
    else if code == 16 then ServerTimeout
    else if code == 25 then LimitExceeded
    else Unnamed(code)
  }

  /** Casting a result's code back gives the same result, for every result the cast can produce. */
  lemma CodeRoundTrip(r: LobbyCreationResult)
    requires r.Unnamed? ==> r.code !in {1, 2, 3, 15, 16, 25}
    ensures FromCode(Code(r)) == r
  {
  }

  /**
   * What `OnLobbyCreated` reports for Steam's result code, its I/O-failure
   * flag and the lobby id it carries.
   */
  function CreationOutcome(result: int, ioFailure: bool, lobbyId: PeerId): (LobbyCreationResult, PeerId) {
    if result == ResultOK && !ioFailure then (Success, lobbyId) else (FromCode(result), Nil)
  }

  /**
   * The real lobby id is reported only with OK and no I/O failure; any other
   * answer reports its own code with Nil. So OK together with an I/O failure
   * is still reported as Success, with a Nil lobby id.
   */
  lemma CreationOutcomeCases(result: int, ioFailure: bool, lobbyId: PeerId)
    ensures var (r, id) := CreationOutcome(result, ioFailure, lobbyId);
      && (result == ResultOK && !ioFailure ==> r == Success && id == lobbyId)
      && (!(result == ResultOK && !ioFailure) ==> Code(r) == result && id == Nil)
      && (r == Success <==> result == ResultOK)
      && (result == ResultOK && ioFailure ==> r == Success && id == Nil)
  {
  }

  class LobbyCreator {
    var isAwaitingResult: bool
    /** The matchmaking requests issued so far. */
    var calls: seq<MatchmakingCall>

    constructor ()
      ensures !isAwaitingResult && calls == []
    {
      isAwaitingResult := false;
      calls := [];
    }

    /** `Create`: a request is issued, and awaited, only when none is in flight. */
    method Create(memberLimit: uint32)
      modifies this
      ensures isAwaitingResult
      ensures old(isAwaitingResult) ==> calls == old(calls)
      ensures !old(isAwaitingResult) ==> calls == old(calls) + [CreateLobby(ToInt32(memberLimit))]
    {
      if !isAwaitingResult {
        calls := calls + [CreateLobby(ToInt32(memberLimit))];
        isAwaitingResult := true;
      }
    }

    /** `OnLobbyCreated`: reports the outcome and always stops awaiting. */
    method OnLobbyCreated(result: int, ioFailure: bool, lobbyId: PeerId) returns (r: LobbyCreationResult, id: PeerId)
      modifies this
      ensures !isAwaitingResult
      ensures calls == old(calls)
      ensures (r, id) == CreationOutcome(result, ioFailure, lobbyId)
    {
      if result == ResultOK && !ioFailure {
        r, id := Success, lobbyId;
      } else {
        r, id := FromCode(result), Nil;
      }
      isAwaitingResult := false;
    }
  }
}
