/**
 * Key/value metadata of a lobby (`LobbyMetaData`) and the pieces it shares
 * with per-member metadata (`Member`): the length limits on what may be
 * stored, building a dictionary from a snapshot, and the diff that decides
 * which pairs are reported as changed.
 */
module MetaData {
  import opened Wrappers
  import opened Transport
  import opened Matchmaking

  const MaxKeyLength: nat := 255
  const MaxValueLength: nat := 8192

  /**
   * C#'s `string.Length`: the number of UTF-16 code units, so a character
   * outside the Basic Multilingual Plane counts twice.
   */
  function Utf16Length(s: string): (n: nat)
    ensures |s| <= n <= 2 * |s|
    ensures (forall i :: 0 <= i < |s| ==> s[i] as int < 0x1_0000) ==> n == |s|
    ensures (forall i :: 0 <= i < |s| ==> s[i] as int >= 0x1_0000) ==> n == 2 * |s|
    decreases |s|
  {
    if s == [] then 0
    else (if s[0] as int < 0x1_0000 then 1 else 2) + Utf16Length(s[1..])
  }

  /** Both bounds are strict, and neither key nor value may be empty; lengths are in UTF-16 code units. */
  predicate IsStorablePair(key: string, value: string) {
    0 < Utf16Length(key) < MaxKeyLength && 0 < Utf16Length(value) < MaxValueLength
  }

  /**
   * A key of 128 emoji has 128 characters but 256 UTF-16 code units, so it
   * is refused although it is shorter than the key limit in characters.
   */
  lemma AstralKeyRefused()
    ensures var key := seq(128, _ => '\U{1F600}');
      |key| < MaxKeyLength && Utf16Length(key) == 256 && !IsStorablePair(key, "v")
  {
    var key := seq(128, _ => '\U{1F600}');
    assert forall i :: 0 <= i < |key| ==> key[i] as int >= 0x1_0000;
  }

  datatype Pair = Pair(key: string, value: string)

  ghost predicate DistinctKeys(ps: seq<Pair>) {
    forall i, j :: 0 <= i < j < |ps| ==> ps[i].key != ps[j].key
  }

  /** The dictionary holding the pairs of a snapshot, added in order. */
  function ToMap(ps: seq<Pair>): (m: map<string, string>)
    ensures m.Keys == set p | p in ps :: p.key
    decreases |ps|
  {
    if ps == [] then map[]
    else
      var last := ps[|ps| - 1];
      var init := ps[..|ps| - 1];
      assert forall p :: p in ps <==> p in init || p == last;
      ToMap(init)[last.key := last.value]
  }

  /** With distinct keys, the dictionary maps every key of the snapshot to its value there. */
  lemma {:induction false} ToMapHolds(ps: seq<Pair>)
    requires DistinctKeys(ps)
    ensures forall i :: 0 <= i < |ps| ==> ToMap(ps)[ps[i].key] == ps[i].value
    decreases |ps|
  {
    if ps != [] {
      var init := ps[..|ps| - 1];
      ToMapHolds(init);
      forall i | 0 <= i < |ps| ensures ToMap(ps)[ps[i].key] == ps[i].value {
        if i < |ps| - 1 {
          assert ps[i] == init[i];
        }
      }
    }
  }

  /**
   * Building a `Dictionary` with `Add` from a snapshot: `Add` throws on a key
   * already present, which aborts the build (`None`).
   */
  method BuildDictionary(ps: seq<Pair>) returns (d: Option<map<string, string>>)
    ensures d.Some? <==> DistinctKeys(ps)
    ensures d.Some? ==> d.value == ToMap(ps)
  {
    var m: map<string, string> := map[];
    var i := 0;
    while i < |ps|
      invariant 0 <= i <= |ps|
      invariant DistinctKeys(ps[..i])
      invariant m == ToMap(ps[..i])
    {
      var p := ps[i];
      if p.key in m {
        var j :| 0 <= j < i && ps[..i][j].key == p.key;
        assert ps[j].key == ps[i].key;
        return None;
      }
      assert ps[..i + 1] == ps[..i] + [p];
      assert ps[..i + 1][..i] == ps[..i];
      m := m[p.key := p.value];
      i := i + 1;
    }
    assert ps[..i] == ps;
    d := Some(m);
  }

  /** A snapshot pair is reported when its key is new or its value differs from the stored one. */
  predicate IsChange(current: map<string, string>, p: Pair) {
    p.key !in current || current[p.key] != p.value
  }

  /** The pairs reported for a snapshot, in snapshot order. */
  function Changes(current: map<string, string>, snapshot: seq<Pair>): (r: seq<Pair>)
    ensures forall p :: p in r <==> p in snapshot && IsChange(current, p)
    ensures |r| <= |snapshot|
    decreases |snapshot|
  {
    if snapshot == [] then []
    else
      var last := snapshot[|snapshot| - 1];
      var init := snapshot[..|snapshot| - 1];
      assert forall p :: p in snapshot <==> p in init || p == last;
      Changes(current, init) + (if IsChange(current, last) then [last] else [])
  }

  /** The comparison loop of `OnLobbyDataUpdate`: one report per new or altered pair. */
  method Diff(current: map<string, string>, snapshot: seq<Pair>) returns (changes: seq<Pair>)
    ensures changes == Changes(current, snapshot)
  {
    changes := [];
    var i := 0;
    while i < |snapshot|
      invariant 0 <= i <= |snapshot|
      invariant changes == Changes(current, snapshot[..i])
    {
      var p := snapshot[i];
      assert snapshot[..i + 1][..i] == snapshot[..i];
      if p.key !in current {
        changes := changes + [p];
      } else if current[p.key] != p.value {
        changes := changes + [p];
      }
      i := i + 1;
    }
    assert snapshot[..i] == snapshot;
  }

  /** A snapshot none of whose pairs is a change reports nothing. */
  lemma {:induction false} NothingChanged(current: map<string, string>, ps: seq<Pair>)
    requires forall p :: p in ps ==> !IsChange(current, p)
    ensures Changes(current, ps) == []
    decreases |ps|
  {
    if ps != [] {
      var init := ps[..|ps| - 1];
      assert forall p :: p in init ==> p in ps;
      NothingChanged(current, init);
      assert ps[|ps| - 1] in ps;
    }
  }

  /** Applying the same snapshot twice: the second application reports nothing. */
  lemma ReapplyIsSilent(ps: seq<Pair>)
    requires DistinctKeys(ps)
    ensures Changes(ToMap(ps), ps) == []
  {
    ToMapHolds(ps);
    forall p | p in ps ensures !IsChange(ToMap(ps), p) {
      var i :| 0 <= i < |ps| && ps[i] == p;
    }
    NothingChanged(ToMap(ps), ps);
  }

  /** Against an empty store every snapshot pair is reported, in order. */
  lemma {:induction false} FirstUpdateReportsAll(ps: seq<Pair>)
    ensures Changes(map[], ps) == ps
    decreases |ps|
  {
    if ps != [] {
      FirstUpdateReportsAll(ps[..|ps| - 1]);
      assert ps == ps[..|ps| - 1] + [ps[|ps| - 1]];
    }
  }

  /** A lobby's metadata store. */
  class LobbyMetaData {
    const lobbyId: PeerId
    /** `metaDataPairs`, the last snapshot applied. */
    var pairs: map<string, string>
    /** The matchmaking requests issued so far. */
    var calls: seq<MatchmakingCall>

    constructor (lobbyId: PeerId)
      ensures this.lobbyId == lobbyId && pairs == map[] && calls == []
    {
      this.lobbyId := lobbyId;
      pairs := map[];
      calls := [];
    }

    /** `GetMetaDataValue`: the stored value, or `None` (the source's `null`) for an unknown key. */
    function GetMetaDataValue(key: string): (r: Option<string>)
      reads this
      ensures r.Some? <==> key in pairs
      ensures r.Some? ==> r.value == pairs[key]
    {
      if key in pairs then Some(pairs[key]) else None
    }

    /** `SetMetaDataPair`: forwarded to Steam only within the length limits; the store waits for the update. */
    method SetMetaDataPair(key: string, value: string)
      modifies this
      ensures pairs == old(pairs)
      ensures calls == if IsStorablePair(key, value) then old(calls) + [SetLobbyData(lobbyId, key, value)] else old(calls)
    {
      if 0 < Utf16Length(key) && Utf16Length(key) < MaxKeyLength && 0 < Utf16Length(value) && Utf16Length(value) < MaxValueLength {
        calls := calls + [SetLobbyData(lobbyId, key, value)];
      }
    }

    /**
     * `OnLobbyDataUpdate`: an update for this lobby that succeeded reports
     * every new or altered pair of the built snapshot and then stores the
     * snapshot. Any other update changes nothing (`Some([])`); a snapshot with
     * a repeated key aborts the handler (`None`) before anything is reported.
     */
    method OnLobbyDataUpdate(memberId: PeerId, success: bool, snapshot: seq<Pair>) returns (reported: Option<seq<Pair>>)
      modifies this
      ensures calls == old(calls)
      ensures !(memberId == lobbyId && success) ==> reported == Some([]) && pairs == old(pairs)
      ensures memberId == lobbyId && success && !DistinctKeys(snapshot) ==> reported.None? && pairs == old(pairs)
      ensures memberId == lobbyId && success && DistinctKeys(snapshot) ==>
        reported == Some(Changes(old(pairs), snapshot)) && pairs == ToMap(snapshot)
    {
      reported := Some([]);
      if memberId == lobbyId {
        if success {
          var built := BuildDictionary(snapshot);
          if built.None? {
            return None;
          }
          var changes := Diff(pairs, snapshot);
          reported := Some(changes);
          pairs := built.value;
        }
      }
    }
  }
}
