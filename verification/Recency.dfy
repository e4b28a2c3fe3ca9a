/** What move-to-front coding writes, said of the characters alone: for a character that occurred
    before, how many others occurred since; and runs of zeros by their lengths. */
module Recency {
  import opened Rotations
  import opened MoveToFront

  ghost predicate Distinct(yy: seq<Byte>) {
    forall i, j :: 0 <= i < j < |yy| ==> yy[i] != yy[j]
  }

  ghost function Chars(s: seq<Byte>): set<Byte> { set c | c in s }

  /** The place in the list of each character as it is coded. */
  function Ranks(yy: seq<Byte>, s: seq<Byte>): (r: seq<nat>)
    requires forall k :: 0 <= k < |s| ==> s[k] in yy
    ensures |r| == |s|
    decreases |s|
  {
    if s == [] then [] else
    var j := Find(yy, s[0]);
    assert forall c :: c in yy ==> c in ToFront(yy, j);
    [j] + Ranks(ToFront(yy, j), s[1..])
  }

  /** Places as symbols: runs of zeros by length, any other place one up. */
  function ZeroRuns(z: nat, r: seq<nat>, EOB: nat): seq<nat>
    decreases |r|
  {
    if r == [] then RunSymbols(z) + [EOB]
    else if r[0] == 0 then ZeroRuns(z + 1, r[1..], EOB)
    else RunSymbols(z) + [r[0] + 1] + ZeroRuns(0, r[1..], EOB)
  }

  /** The coding is the places with their runs of zeros shortened. */
  lemma {:induction false} EncodeIsRanks(yy: seq<Byte>, z: nat, s: seq<Byte>, EOB: nat)
    requires yy != [] && forall k :: 0 <= k < |s| ==> s[k] in yy
    ensures Encode(yy, z, s, EOB) == ZeroRuns(z, Ranks(yy, s), EOB)
    decreases |s|
  {
    hide RunSymbols, ToFront;
    if s != [] {
      if s[0] == yy[0] {
        FrontAlready(yy);
        EncodeIsRanks(yy, z + 1, s[1..], EOB);
      } else {
        var j, next := FoundFurther(yy, s);
        EncodeIsRanks(next, 0, s[1..], EOB);
      }
    }
  }

  lemma FrontAlready(yy: seq<Byte>)
    requires yy != []
    ensures ToFront(yy, 0) == yy
  {
  }

  // ------------------------------------------------------------------ places are recency

  lemma FindIs(yy: seq<Byte>, k: nat)
    requires Distinct(yy) && k < |yy|
    ensures Find(yy, yy[k]) == k
  {
  }

  lemma FrontDistinct(yy: seq<Byte>, j: nat)
    requires Distinct(yy) && j < |yy|
    ensures Distinct(ToFront(yy, j))
  {
  }

  lemma {:induction false} DistinctCount(yy: seq<Byte>)
    requires Distinct(yy)
    ensures |Chars(yy)| == |yy|
  {
    if yy != [] {
      var t := yy[1..];
      DistinctCount(t);
      assert Chars(yy) == Chars(t) + {yy[0]};
      assert forall k :: 0 <= k < |t| ==> t[k] == yy[k + 1] != yy[0];
    }
  }

  /** Another character moved to the front: what stands before `c` then. */
  lemma PlaceAfter(yy: seq<Byte>, j: nat, p: nat) returns (q: nat)
    requires Distinct(yy) && j < |yy| && p < |yy| && j != p
    ensures q < |yy| && ToFront(yy, j)[q] == yy[p]
    ensures Chars(ToFront(yy, j)[..q]) == Chars(yy[..p]) + {yy[j]}
  {
    var r := ToFront(yy, j);
    q := if j < p then p else p + 1;
    if j < p {
      assert r[..q] == [yy[j]] + yy[..j] + yy[j + 1..p];
      assert yy[..p] == yy[..j] + [yy[j]] + yy[j + 1..p];
    } else {
      assert r[..q] == [yy[j]] + yy[..p];
    }
  }

  /** A character not met so far: before it stand those met, and those that were before it. */
  lemma {:induction false} RankOfNew(yy: seq<Byte>, s: seq<Byte>, i: nat, p: nat)
    requires Distinct(yy) && (forall k :: 0 <= k < |s| ==> s[k] in yy)
    requires i < |s| && p < |yy| && yy[p] == s[i] && s[i] !in s[..i]
    ensures Ranks(yy, s)[i] == |Chars(yy[..p]) + Chars(s[..i])|
    decreases |s|
  {
    var j := Find(yy, s[0]);
    var next := ToFront(yy, j);
    ToFrontMembers(yy, j);
    FindIs(yy, p);
    if i == 0 {
      DistinctCount(yy[..p]);
      assert Chars(yy[..p]) + Chars(s[..0]) == Chars(yy[..p]);
    } else {
      assert s[0] == s[..i][0];
      FrontDistinct(yy, j);
      var q := PlaceAfter(yy, j, p);
      assert s[1..][..i - 1] == s[1..i] && s[..i] == [s[0]] + s[1..i];
      RankOfNew(next, s[1..], i - 1, q);
      assert Chars(next[..q]) + Chars(s[1..i]) == Chars(yy[..p]) + Chars(s[..i]);
    }
  }

  /** A character met before is coded by the number of different characters met since. */
  lemma {:induction false} RankIsRecency(yy: seq<Byte>, s: seq<Byte>, a: nat, i: nat)
    requires Distinct(yy) && forall k :: 0 <= k < |s| ==> s[k] in yy
    requires a < i < |s| && s[a] == s[i] && s[i] !in s[a + 1..i]
    ensures Ranks(yy, s)[i] == |Chars(s[a + 1..i])|
    decreases |s|
  {
    var j := Find(yy, s[0]);
    var next := ToFront(yy, j);
    ToFrontMembers(yy, j);
    FrontDistinct(yy, j);
    assert s[1..][a..i - 1] == s[a + 1..i];
    if a == 0 {
      assert s[1..][..i - 1] == s[1..i];
      RankOfNew(next, s[1..], i - 1, 0);
      assert Chars(next[..0]) + Chars(s[1..i]) == Chars(s[1..i]);
    } else {
      RankIsRecency(next, s[1..], a - 1, i - 1);
    }
  }
}
