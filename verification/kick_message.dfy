/**
 * The kick protocol carried over lobby chat: the owner sends
 * `KICK_MEMBER_<id>` with the id in decimal (`ulong.ToString()`), and a
 * member leaves when an owner message holding the marker contains its own
 * id's decimal text anywhere (`string.Contains`).
 */
module KickMessages {
  import opened Transport

  /** `Chat.KickMessage`. */
  const KickMarker: string := "KICK_MEMBER"

  predicate IsDigit(c: char) {
    '0' <= c <= '9'
  }

  function Digit(d: nat): (c: char)
    requires d < 10
    ensures IsDigit(c)
  {
    ('0' as int + d) as char
  }

  /** `ulong.ToString()`: the decimal text of `n`, without leading zeros. */
  function Decimal(n: nat): (s: string)
    ensures |s| > 0
    ensures forall i :: 0 <= i < |s| ==> IsDigit(s[i])
    decreases n
  {
    if n < 10 then [Digit(n)] else Decimal(n / 10) + [Digit(n % 10)]
  }

  /** The value of a string of decimal digits. */
  function ParseDecimal(s: string): nat
    requires forall i :: 0 <= i < |s| ==> IsDigit(s[i])
    decreases |s|
  {
    if s == [] then 0
    else
      assert IsDigit(s[|s| - 1]);
      ParseDecimal(s[..|s| - 1]) * 10 + (s[|s| - 1] as int - '0' as int)
  }

  /** Reading back the decimal text of `n` gives `n`. */
  lemma {:induction false} DecimalRoundTrip(n: nat)
    ensures ParseDecimal(Decimal(n)) == n
    decreases n
  {
    if n >= 10 {
      var s := Decimal(n);
      assert s[..|s| - 1] == Decimal(n / 10);
      DecimalRoundTrip(n / 10);
    }
  }

  /** Different ids have different decimal texts. */
  lemma DecimalInjective(a: nat, b: nat)
    requires Decimal(a) == Decimal(b)
    ensures a == b
  {
    DecimalRoundTrip(a);
    DecimalRoundTrip(b);
  }

  /** `s.Contains(t)`: `t` occurs in `s` at some position. */
  predicate Contains(s: string, t: string)
    decreases |s|
  {
    (|t| <= |s| && s[..|t|] == t) || (|s| > 0 && Contains(s[1..], t))
  }

  /** An occurrence at position `i` makes `Contains` hold. */
  lemma {:induction false} ContainsAt(s: string, t: string, i: nat)
    requires i + |t| <= |s| && s[i..i + |t|] == t
    ensures Contains(s, t)
    decreases i
  {
    if i > 0 {
      assert s[1..][i - 1..i - 1 + |t|] == s[i..i + |t|];
      ContainsAt(s[1..], t, i - 1);
    }
  }

  /** `Contains` holds only through an occurrence at some position. */
  lemma {:induction false} ContainsWitness(s: string, t: string) returns (i: nat)
    requires Contains(s, t)
    ensures i + |t| <= |s| && s[i..i + |t|] == t
    decreases |s|
  {
    if |t| <= |s| && s[..|t|] == t {
      i := 0;
    } else {
      var j := ContainsWitness(s[1..], t);
      assert s[1..][j..j + |t|] == s[j + 1..j + 1 + |t|];
      i := j + 1;
    }
  }

  /** The chat text `KickMember` sends to remove the member `id`. */
  function KickText(id: PeerId): (s: string)
    ensures Contains(s, KickMarker)
    ensures Contains(s, Decimal(id))
  {
    var s := KickMarker + "_" + Decimal(id);
    ContainsAt(s, KickMarker, 0);
    ContainsAt(s, Decimal(id), |KickMarker| + 1);
    s
  }

  /**
   * Among ids whose decimal texts have the same length (as all individual
   * Steam ids have), a kick message is recognised by exactly the member it names.
   */
  lemma KickTargetsExactly(target: PeerId, member: PeerId)
    requires |Decimal(target)| == |Decimal(member)|
    ensures Contains(KickText(target), Decimal(member)) <==> target == member
  {
    var s, t := KickText(target), Decimal(member);
    assert s == KickMarker + "_" + Decimal(target);
    if Contains(s, t) {
      var i := ContainsWitness(s, t);
      assert forall j :: 0 <= j < |KickMarker| + 1 ==> !IsDigit(s[j]);
      assert IsDigit(s[i]) by { assert s[i] == t[0]; }
      assert i == |KickMarker| + 1;
      assert s[i..i + |t|] == Decimal(target);
      DecimalInjective(target, member);
    }
  }

  /**
   * Without equal lengths the substring test over-matches: the message kicking
   * member 12 also removes member 1.
   */
  lemma KickOverMatchesShorterId()
    ensures Contains(KickText(12), Decimal(1))
  {
    assert Decimal(12) == Decimal(1) + [Digit(2)];
    ContainsAt(KickText(12), Decimal(1), |KickMarker| + 1);
  }
}
