/**
 * `Lobby`: the local user's membership in at most one matchmaking lobby,
 * the roster of its members, and the handlers that keep both in step with
 * Steam's callbacks. The static class becomes one object; Steam's answers
 * (the owner, the member limit, the roster) are parameters.
 */
module Lobbies {
  import opened Wrappers
  import opened Lists
  import opened Transport
  import opened Matchmaking
  import opened Members
  import opened LobbyCreators
  import opened LobbyEnterers
  import opened KickMessages

  datatype LobbyEvent =
    | Created(result: LobbyCreationResult)
    | Entered(success: bool)
    | Left
    | Kicked
    | ChatMessageReceived(memberId: PeerId, message: string)
    | MemberEntered(memberId: PeerId)
    | MemberLeft(memberId: PeerId)
    | OwnerLeft(memberId: PeerId)

  /** The `EChatMemberStateChange` codes `OnLobbyChatUpdate` handles. */
  const StateChangeEntered: int := 1
  const StateChangeLeft: int := 2
  const StateChangeDisconnected: int := 4
  const StateChangeKicked: int := 8
  const StateChangeBanned: int := 16

  predicate IsDeparture(stateChange: int) {
    stateChange in {StateChangeLeft, StateChangeDisconnected, StateChangeKicked, StateChangeBanned}
  }

  /** `ID64` of every member, in list order. */
  function MemberIds(ms: seq<Member>): (ids: seq<PeerId>)
    ensures |ids| == |ms|
    ensures forall i :: 0 <= i < |ms| ==> ids[i] == ms[i].id
  {
    seq(|ms|, i requires 0 <= i < |ms| => ms[i].id)
  }

  /** The ids of a roster that `AddMember` keeps, in roster order. */
  function ValidIds(roster: seq<PeerId>): (ids: seq<PeerId>)
    ensures forall x :: x in ids <==> x in roster && IsValidId(x)
    ensures |ids| <= |roster|
    decreases |roster|
  {
    if roster == [] then []
    else
      var last := roster[|roster| - 1];
      ValidIds(roster[..|roster| - 1]) + (if IsValidId(last) then [last] else [])
  }

  /** The valid ids among the first i + 1 roster entries: those among the first i, then entry i if valid. */
  lemma ValidIdsStep(roster: seq<PeerId>, i: nat)
    requires i < |roster|
    ensures ValidIds(roster[..i + 1]) == ValidIds(roster[..i]) + (if IsValidId(roster[i]) then [roster[i]] else [])
  {
    assert roster[..i + 1][..i] == roster[..i];
  }

  /** The member limit `Create` asks for: clamped to the range 1..200. */
  function ClampLimit(memberLimit: uint32): (r: uint32)
    ensures 1 <= r <= 200
    ensures 1 <= memberLimit <= 200 ==> r == memberLimit
    ensures memberLimit < 1 ==> r == 1
    ensures memberLimit > 200 ==> r == 200
  {
    if memberLimit < 1 then 1 else if memberLimit > 200 then 200 else memberLimit
  }

  /** A member who entered and then left leaves the id list as it was. */
  lemma EnterThenLeaveRestores(ids: seq<PeerId>, x: PeerId)
    requires x !in ids
    ensures RemoveFirst(ids + [x], x) == ids
  {
    var k := IndexOf(ids + [x], x).value;
    assert (ids + [x])[|ids|] == x;
    assert forall j :: 0 <= j < |ids| ==> (ids + [x])[j] != x;
    assert RemoveAt(ids + [x], k) == ids;
  }

  class Lobby {
    /** `SteamID`: the lobby entered, `Nil` when in none. */
    var steamId: PeerId
    /** `MemberList`. */
    var memberList: seq<Member>
    /** Whether the `Chat` and `MetaData` objects exist (between `Initialize` and `Invalidate`). */
    var hasChat: bool
    /** `SteamUser.GetSteamID()`. */
    const localUser: PeerId
    const creator: LobbyCreator
    const enterer: LobbyEnterer
    /** The matchmaking requests issued directly by the lobby. */
    var calls: seq<MatchmakingCall>

    ghost predicate Valid()
      reads this
    {
      && (IsValidId(steamId) ==> hasChat)
      && MembersValid()
    }

    /** Only members built from a valid id are ever listed. */
    ghost predicate MembersValid()
      reads this
    {
      forall m :: m in memberList ==> m.IsValid()
    }

    constructor (localUser: PeerId)
      ensures Valid()
      ensures steamId == Nil && memberList == [] && !hasChat && calls == []
      ensures this.localUser == localUser
      ensures fresh(creator) && fresh(enterer)
      ensures !creator.isAwaitingResult && creator.calls == []
      ensures !enterer.isAwaitingResult && enterer.calls == []
    {
      steamId := Nil;
      memberList := [];
      hasChat := false;
      this.localUser := localUser;
      creator := new LobbyCreator();
      enterer := new LobbyEnterer();
      calls := [];
    }

    /** `IsValid`: the local user is in a lobby. */
    predicate IsValid()
      reads this
    {
      IsValidId(steamId)
    }

    /** `ID`: 0 outside a lobby. */
    function ID(): PeerId
      reads this
    {
      if IsValid() then steamId else 0
    }

    /** `OwnerID`, given Steam's current owner of the lobby: 0 outside a lobby. */
    function OwnerID(steamOwner: PeerId): PeerId
      reads this
    {
      if IsValid() then steamOwner else 0
    }

    /** `IsLocalOwner`: false outside a lobby. */
    predicate IsLocalOwner(steamOwner: PeerId)
      reads this
    {
      if IsValid() then OwnerID(steamOwner) == localUser else false
    }

    /** `Members`: `None` (the source's `null`) outside a lobby. */
    function Members(): Option<seq<PeerId>>
      reads this
    {
      if IsValid() then Some(MemberIds(memberList)) else None
    }

    /** `MemberLimit`, given Steam's limit for the lobby: -1 outside a lobby. */
    function MemberLimit(steamLimit: int): int
      reads this
    {
      if IsValid() then steamLimit else -1
    }

    /** `IsCreatingOrEnteringLobby`. */
    predicate IsCreatingOrEntering()
      reads this, creator, enterer
    {
      creator.isAwaitingResult || enterer.isAwaitingResult
    }

    /**
     * `Create`: outside a lobby and with no request in flight, asks for a lobby
     * whose member limit is clamped to 1..200; otherwise does nothing.
     */
    method Create(memberLimit: uint32)
      modifies creator
      ensures var acts := !IsValid() && !old(IsCreatingOrEntering());
        && (acts ==>
              creator.isAwaitingResult && creator.calls == old(creator.calls) + [CreateLobby(ClampLimit(memberLimit))])
        && (!acts ==>
              creator.isAwaitingResult == old(creator.isAwaitingResult) && creator.calls == old(creator.calls))
    {
      if !IsValid() && !IsCreatingOrEntering() {
        creator.Create(ClampLimit(memberLimit));
      }
    }

    /** `Enter`: outside a lobby and with no request in flight, asks to join `lobbyId`. */
    method Enter(lobbyId: PeerId)
      modifies enterer
      ensures var acts := !IsValid() && !old(IsCreatingOrEntering());
        && (acts ==> enterer.isAwaitingResult && enterer.calls == old(enterer.calls) + [JoinLobby(lobbyId)])
        && (!acts ==>
              enterer.isAwaitingResult == old(enterer.isAwaitingResult) && enterer.calls == old(enterer.calls))
    {
      if !IsValid() && !IsCreatingOrEntering() {
        enterer.Enter(lobbyId);
      }
    }

    /**
     * `OnGameLobbyJoinRequested`: an invitation accepted through Steam. Outside
     * a lobby the enterer is asked to join without the in-flight check `Enter`
     * makes, so a join goes out even while a creation is awaited; inside a
     * lobby only Entered(false) is raised.
     */
    method OnGameLobbyJoinRequested(lobbyId: PeerId) returns (evs: seq<LobbyEvent>)
      modifies enterer
      ensures !IsValid() ==>
        && evs == []
        && enterer.isAwaitingResult
        && enterer.calls == old(enterer.calls) + (if old(enterer.isAwaitingResult) then [] else [JoinLobby(lobbyId)])
      ensures IsValid() ==> evs == [Entered(false)] && unchanged(enterer)
    {
      if !IsValid() {
        enterer.Enter(lobbyId);
        evs := [];
      } else {
        evs := [Entered(false)];
      }
    }

    /**
     * `KickMember`: only the owner, inside a lobby, and only for a current
     * member, sends the kick text over the lobby chat.
     */
    method KickMember(memberId: PeerId, steamOwner: PeerId)
      modifies this
      ensures steamId == old(steamId) && memberList == old(memberList) && hasChat == old(hasChat)
      ensures IsValid() && IsLocalOwner(steamOwner) && memberId in MemberIds(memberList) ==>
        calls == old(calls) + [SendChatMessage(steamId, KickText(memberId))]
      ensures !(IsValid() && IsLocalOwner(steamOwner) && memberId in MemberIds(memberList)) ==>
        calls == old(calls)
    {
      if IsValid() && IsLocalOwner(steamOwner) && memberId in MemberIds(memberList) {
        calls := calls + [SendChatMessage(steamId, KickText(memberId))];
      }
    }

    /** `Invalidate`: forgets the lobby, its members, its chat and its metadata. */
    method Invalidate()
      requires hasChat
      modifies this
      ensures Valid()
      ensures steamId == Nil && memberList == [] && !hasChat
      ensures calls == old(calls)
    {
      steamId := Nil;
      memberList := [];
      hasChat := false;
    }

    /** `Leave`: inside a lobby, tells Steam, forgets the lobby and raises Left. */
    method Leave() returns (evs: seq<LobbyEvent>)
      requires Valid()
      modifies this
      ensures Valid()
      ensures old(IsValid()) ==>
        && calls == old(calls) + [LeaveLobby(old(steamId))]
        && steamId == Nil && memberList == [] && !hasChat
        && evs == [Left]
      ensures !old(IsValid()) ==> unchanged(this) && evs == []
    {
      evs := [];
      if IsValid() {
        calls := calls + [LeaveLobby(steamId)];
        Invalidate();
        evs := [Left];
      }
    }

    /** `Kick`: leaves the lobby after a kick message and raises Kicked. */
    method Kick() returns (evs: seq<LobbyEvent>)
      requires hasChat
      modifies this
      ensures Valid()
      ensures calls == old(calls) + [LeaveLobby(old(steamId))]
      ensures steamId == Nil && memberList == [] && !hasChat
      ensures evs == [Kicked]
    {
      calls := calls + [LeaveLobby(steamId)];
      Invalidate();
      evs := [Kicked];
    }

    /** `AddMember`: the member joins the list only when its id is valid. */
    method AddMember(memberId: PeerId)
      requires MembersValid()
      modifies this
      ensures MembersValid()
      ensures MemberIds(memberList) == MemberIds(old(memberList)) + (if IsValidId(memberId) then [memberId] else [])
      ensures memberList[..|old(memberList)|] == old(memberList)
      ensures forall m :: m in memberList[|old(memberList)|..] ==> fresh(m) && m.lobbyId == steamId
      ensures steamId == old(steamId) && hasChat == old(hasChat) && calls == old(calls)
    {
      var member := new Member(memberId, steamId);
      if member.IsValid() {
        memberList := memberList + [member];
      }
      assert memberList[..|old(memberList)|] == old(memberList);
    }

    /**
     * `RemoveMember`: drops the first member with this id. With no such member
     * the source dereferences `null` and the handler aborts (`ok` false,
     * nothing changed).
     */
    method RemoveMember(memberId: PeerId) returns (ok: bool)
      requires Valid()
      modifies this
      ensures Valid()
      ensures ok <==> memberId in MemberIds(old(memberList))
      ensures MemberIds(memberList) == RemoveFirst(MemberIds(old(memberList)), memberId)
      ensures forall m :: m in memberList ==> m in old(memberList)
      ensures steamId == old(steamId) && hasChat == old(hasChat) && calls == old(calls)
    {
      var k := IndexOf(MemberIds(memberList), memberId);
      if k.None? {
        return false;
      }
      var ids := MemberIds(memberList);
      var rest := RemoveAt(memberList, k.value);
      assert MemberIds(rest) == RemoveAt(ids, k.value);
      RemoveAtMembers(memberList, k.value);
      memberList := rest;
      ok := true;
    }

    /**
     * `Initialize`: enters `lobbyId`, appends every valid member of Steam's
     * roster (the list is not cleared first) and creates the chat and metadata.
     */
    method Initialize(lobbyId: PeerId, roster: seq<PeerId>)
      requires Valid()
      modifies this
      ensures Valid()
      ensures steamId == lobbyId && hasChat && calls == old(calls)
      ensures MemberIds(memberList) == MemberIds(old(memberList)) + ValidIds(roster)
    {
      steamId := lobbyId;
      ghost var start := memberList;
      var i := 0;
      while i < |roster|
        invariant 0 <= i <= |roster|
        invariant steamId == lobbyId && calls == old(calls) && hasChat == old(hasChat)
        invariant MembersValid()
        invariant MemberIds(memberList) == MemberIds(start) + ValidIds(roster[..i])
      {
        ValidIdsStep(roster, i);
        AppendAssoc(MemberIds(start), ValidIds(roster[..i]), if IsValidId(roster[i]) then [roster[i]] else []);
        AddMember(roster[i]);
        i := i + 1;
      }
      assert roster[..i] == roster;
      hasChat := true;
    }

    /** `OnCreatorCreated`: enters the lobby on Success and always raises Created. */
    method OnCreatorCreated(result: LobbyCreationResult, lobbyId: PeerId, roster: seq<PeerId>) returns (evs: seq<LobbyEvent>)
      requires Valid()
      modifies this
      ensures Valid()
      ensures evs == [Created(result)]
      ensures result == Success ==>
        steamId == lobbyId && hasChat && calls == old(calls)
        && MemberIds(memberList) == MemberIds(old(memberList)) + ValidIds(roster)
      ensures result != Success ==> unchanged(this)
    {
      if result == Success {
        Initialize(lobbyId, roster);
      }
      evs := [Created(result)];
    }

    /** `OnEntererEntered`: enters the lobby on success and always raises Entered. */
    method OnEntererEntered(success: bool, lobbyId: PeerId, roster: seq<PeerId>) returns (evs: seq<LobbyEvent>)
      requires Valid()
      modifies this
      ensures Valid()
      ensures evs == [Entered(success)]
      ensures success ==>
        steamId == lobbyId && hasChat && calls == old(calls)
        && MemberIds(memberList) == MemberIds(old(memberList)) + ValidIds(roster)
      ensures !success ==> unchanged(this)
    {
      if success {
        Initialize(lobbyId, roster);
      }
      evs := [Entered(success)];
    }

    /**
     * `OnLobbyChatMessageReceived`: a message from the owner that holds the
     * kick marker is never forwarded; it kicks the local user when it holds
     * the local id's text. Every other message is forwarded.
     */
    method OnLobbyChatMessageReceived(sender: PeerId, message: string, steamOwner: PeerId) returns (evs: seq<LobbyEvent>)
      requires Valid() && hasChat
      modifies this
      ensures Valid()
      ensures var kickMessage := sender == steamOwner && Contains(message, KickMarker);
        && (!kickMessage ==> unchanged(this) && evs == [ChatMessageReceived(sender, message)])
        && (kickMessage && !Contains(message, Decimal(localUser)) ==> unchanged(this) && evs == [])
        && (kickMessage && Contains(message, Decimal(localUser)) ==>
              && calls == old(calls) + [LeaveLobby(old(steamId))]
              && steamId == Nil && memberList == [] && !hasChat
              && evs == [Kicked])
    {
      if sender == steamOwner && Contains(message, KickMarker) {
        evs := [];
        if Contains(message, Decimal(localUser)) {
          evs := Kick();
        }
      } else {
        evs := [ChatMessageReceived(sender, message)];
      }
    }

    /**
     * `OnLobbyChatUpdate`: an entry adds the member (if valid) and always
     * raises MemberEntered; a departure removes the member and raises OwnerLeft
     * or MemberLeft, or aborts (`None`) when the member is unknown; any other
     * change is ignored.
     */
    method OnLobbyChatUpdate(stateChange: int, memberId: PeerId, steamOwner: PeerId) returns (evs: Option<seq<LobbyEvent>>)
      requires Valid()
      modifies this
      ensures Valid()
      ensures steamId == old(steamId) && hasChat == old(hasChat) && calls == old(calls)
      ensures stateChange == StateChangeEntered ==>
        && MemberIds(memberList) == MemberIds(old(memberList)) + (if IsValidId(memberId) then [memberId] else [])
        && evs == Some([MemberEntered(memberId)])
      ensures IsDeparture(stateChange) ==>
        && MemberIds(memberList) == RemoveFirst(MemberIds(old(memberList)), memberId)
        && (memberId !in MemberIds(old(memberList)) ==> evs.None?)
        && (memberId in MemberIds(old(memberList)) ==>
              evs == Some(if memberId == OwnerID(steamOwner) then [OwnerLeft(memberId)] else [MemberLeft(memberId)]))
      ensures stateChange != StateChangeEntered && !IsDeparture(stateChange) ==>
        memberList == old(memberList) && evs == Some([])
    {
      if stateChange == StateChangeEntered {
        AddMember(memberId);
        evs := Some([MemberEntered(memberId)]);
      } else if IsDeparture(stateChange) {
        var ok := RemoveMember(memberId);
        if !ok {
          return None;
        }
        if memberId == OwnerID(steamOwner) {
          evs := Some([OwnerLeft(memberId)]);
        } else {
          evs := Some([MemberLeft(memberId)]);
        }
      } else {
        evs := Some([]);
      }
    }
  }

  /** Outside a lobby every getter returns its sentinel. */
  lemma SentinelsOutsideLobby(l: Lobby, steamOwner: PeerId, steamLimit: int)
    requires !l.IsValid()
    ensures l.ID() == 0 && l.OwnerID(steamOwner) == 0 && !l.IsLocalOwner(steamOwner)
    ensures l.Members().None? && l.MemberLimit(steamLimit) == -1
  {
  }
}
