/**
 * `Member`: one lobby member and the metadata it has published under the
 * keys of the shared key filter (`Member.KeyFilter`, here a parameter; `None`
 * is the source's `null`).
 */
module Members {
  import opened Wrappers
  import opened Transport
  import opened Matchmaking
  import opened MetaData

  /** What Steam reports for a member key: the empty string when it was never set. */
  function MemberValue(memberData: map<string, string>, key: string): string {
    if key in memberData then memberData[key] else ""
  }

  /** The snapshot `GetMetaDataPairs` builds: one pair per filter key, in filter order. */
  function FilterSnapshot(keyFilter: seq<string>, memberData: map<string, string>): (ps: seq<Pair>)
    ensures |ps| == |keyFilter|
    ensures forall i :: 0 <= i < |ps| ==> ps[i] == Pair(keyFilter[i], MemberValue(memberData, keyFilter[i]))
  {
    seq(|keyFilter|, i requires 0 <= i < |keyFilter| => Pair(keyFilter[i], MemberValue(memberData, keyFilter[i])))
  }

  /**
   * The snapshot's key set is exactly the key filter, and the snapshot can be
   * stored exactly when the filter names no key twice.
   */
  lemma FilterSnapshotKeys(keyFilter: seq<string>, memberData: map<string, string>)
    ensures ToMap(FilterSnapshot(keyFilter, memberData)).Keys == set k | k in keyFilter
    ensures DistinctKeys(FilterSnapshot(keyFilter, memberData)) <==>
              forall i, j :: 0 <= i < j < |keyFilter| ==> keyFilter[i] != keyFilter[j]
  {
    var ps := FilterSnapshot(keyFilter, memberData);
    forall k | k in keyFilter ensures k in ToMap(ps).Keys {
      var i :| 0 <= i < |keyFilter| && keyFilter[i] == k;
      assert ps[i] in ps;
    }
  }

  class Member {
    /** `ID64`; `Nil` for a member built from an invalid id. */
    const id: PeerId
    const lobbyId: PeerId
    /** `metaDataPairs`, the last snapshot applied. */
    var pairs: map<string, string>

    /**
     * A member built from an invalid id keeps the default (Nil) ids and never
     * registers for updates.
     */
    constructor (memberId: PeerId, lobbyId: PeerId)
      ensures IsValidId(memberId) ==> id == memberId && this.lobbyId == lobbyId
      ensures !IsValidId(memberId) ==> id == Nil && this.lobbyId == Nil
      ensures pairs == map[]
    {
      if IsValidId(memberId) {
        id, this.lobbyId := memberId, lobbyId;
      } else {
        id, this.lobbyId := Nil, Nil;
      }
      pairs := map[];
    }

    predicate IsValid() {
      IsValidId(id)
    }

    /**
     * `SetMetaDataPair` (static): the request is forwarded only for a key of
     * the filter, and only within the strict length limits.
     */
    static function SetMetaDataPair(keyFilter: Option<seq<string>>, lobbyId: PeerId, key: string, value: string): (r: Option<MatchmakingCall>)
      ensures r.Some? <==> keyFilter.Some? && key in keyFilter.value && IsStorablePair(key, value)
      ensures r.Some? ==> r.value == SetLobbyMemberData(lobbyId, key, value)
    {
      if keyFilter.Some? && key in keyFilter.value then
        if 0 < Utf16Length(key) < MaxKeyLength && 0 < Utf16Length(value) < MaxValueLength then Some(SetLobbyMemberData(lobbyId, key, value))
        else None
      else None
    }

    /** `GetMetaDataValue`: `None` (the source's `null`) for an invalid member or a key never stored. */
    function GetMetaDataValue(key: string): (r: Option<string>)
      reads this
      ensures r.Some? <==> IsValid() && key in pairs
      ensures r.Some? ==> r.value == pairs[key]
    {
      if IsValid() && key in pairs then Some(pairs[key]) else None
    }

    /**
     * `GetMetaDataPairs`: the filter keys with their current values, in filter
     * order, or nothing at all without a filter. A key the filter names twice
     * makes `Dictionary.Add` throw (`None`).
     */
    method GetMetaDataPairs(keyFilter: Option<seq<string>>, memberData: map<string, string>) returns (snapshot: Option<seq<Pair>>)
      ensures keyFilter.None? ==> snapshot == Some([])
      ensures keyFilter.Some? ==>
        (snapshot.Some? <==> forall i, j :: 0 <= i < j < |keyFilter.value| ==> keyFilter.value[i] != keyFilter.value[j])
      ensures snapshot.Some? && keyFilter.Some? ==> snapshot.value == FilterSnapshot(keyFilter.value, memberData)
      ensures snapshot.Some? ==> DistinctKeys(snapshot.value)
    {
      if keyFilter.None? {
        return Some([]);
      }
      var ps := FilterSnapshot(keyFilter.value, memberData);
      FilterSnapshotKeys(keyFilter.value, memberData);
      var d := BuildDictionary(ps);
      snapshot := if d.Some? then Some(ps) else None;
    }

    /**
     * `OnLobbyDataUpdate`: an update naming this (valid) member reports every
     * new or altered filter pair and then stores the fresh snapshot; there is
     * no success-flag check. Any other update changes nothing (`Some([])`); a
     * filter naming a key twice aborts the handler (`None`).
     */
    method OnLobbyDataUpdate(memberId: PeerId, keyFilter: Option<seq<string>>, memberData: map<string, string>)
      returns (reported: Option<seq<Pair>>)
      modifies this
      ensures !(IsValid() && memberId == id) ==> reported == Some([]) && pairs == old(pairs)
      ensures IsValid() && memberId == id && keyFilter.None? ==>
        reported == Some([]) && pairs == map[]
      ensures IsValid() && memberId == id && keyFilter.Some? ==>
        var snapshot := FilterSnapshot(keyFilter.value, memberData);
        if DistinctKeys(snapshot) then
          reported == Some(Changes(old(pairs), snapshot)) && pairs == ToMap(snapshot)
        else
          reported.None? && pairs == old(pairs)
    {
      reported := Some([]);
      if IsValid() && id == memberId {
        var snapshot := GetMetaDataPairs(keyFilter, memberData);
        if snapshot.None? {
          FilterSnapshotKeys(keyFilter.value, memberData);
          return None;
        }
        var changes := Diff(pairs, snapshot.value);
        reported := Some(changes);
        pairs := ToMap(snapshot.value);
      }
    }
  }
}
