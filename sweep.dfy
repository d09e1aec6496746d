/** The scan the playlist controller runs to drop elements from a list: at
    each index it deletes a matching element, compacts the list, and then
    still advances the index, so the element that moved into the freed slot
    is never looked at. */
module Sweeps {
  import opened Utils

  /** The list the scan leaves: a dropped element takes its successor's turn,
      so the successor is kept whatever it is. */
  function Sweep<T>(s: seq<T>, drop: T -> bool): seq<T>
    decreases |s|
  {
    if s == [] then []
    else if drop(s[0]) then (if |s| == 1 then [] else [s[1]] + Sweep(s[2..], drop))
    else [s[0]] + Sweep(s[1..], drop)
  }

  /** One step of the scan that deletes `s[i]`: what is settled so far
      followed by the scan of the rest is unchanged. When the deleted element
      was the last one, the index ends one past the end of the shorter list. */
  lemma SweepDeleteStep<T>(s: seq<T>, i: nat, drop: T -> bool)
    requires i < |s| && drop(s[i])
    ensures var r := RemoveAt(s, i);
            if i + 1 <= |r| then r[..i + 1] + Sweep(r[i + 1..], drop) == s[..i] + Sweep(s[i..], drop)
            else r == s[..i] + Sweep(s[i..], drop)
  {
    var r := RemoveAt(s, i);
    assert s[i..][1..] == s[i + 1..];
    if i + 1 <= |r| {
      assert s[i..][2..] == r[i + 1..];
      assert r[..i + 1] == s[..i] + [s[i + 1]];
    } else {
      assert r == s[..i];
    }
  }

  /** One step of the scan that keeps `s[i]`. */
  lemma SweepKeepStep<T>(s: seq<T>, i: nat, drop: T -> bool)
    requires i < |s| && !drop(s[i])
    ensures s[..i + 1] + Sweep(s[i + 1..], drop) == s[..i] + Sweep(s[i..], drop)
  {
    assert s[i..][1..] == s[i + 1..];
    assert s[..i + 1] == s[..i] + [s[i]];
  }

  /** With nothing to drop, the scan keeps the list as it is. */
  lemma {:induction false} SweepNoHit<T>(s: seq<T>, drop: T -> bool)
    requires forall i :: 0 <= i < |s| ==> !drop(s[i])
    ensures Sweep(s, drop) == s
  {
    if s != [] {
      SweepNoHit(s[1..], drop);
    }
  }

  /** With exactly one element to drop, the scan removes just that element. */
  lemma {:induction false} SweepSingleHit<T>(s: seq<T>, k: nat, drop: T -> bool)
    requires k < |s| && drop(s[k])
    requires forall i :: 0 <= i < |s| && i != k ==> !drop(s[i])
    ensures Sweep(s, drop) == RemoveAt(s, k)
  {
    if k == 0 {
      if |s| > 1 {
        SweepNoHit(s[2..], drop);
        assert Sweep(s[2..], drop) == s[2..];
        assert [s[1]] + s[2..] == s[1..];
      }
    } else {
      SweepSingleHit(s[1..], k - 1, drop);
      assert s[1..][..k - 1] + s[1..][k..] == s[1..k] + s[k + 1..];
      assert [s[0]] + s[1..k] == s[..k];
    }
  }

  /** The scan only ever removes elements: everything it keeps comes from the
      list, and an element it must not drop is kept. */
  lemma {:induction false} SweepKeepsOthers<T>(s: seq<T>, drop: T -> bool)
    ensures |Sweep(s, drop)| <= |s|
    ensures forall x :: x in Sweep(s, drop) ==> x in s
    ensures forall i :: 0 <= i < |s| && !drop(s[i]) ==> s[i] in Sweep(s, drop)
  {
    if s != [] {
      if drop(s[0]) {
        if |s| > 1 {
          SweepKeepsOthers(s[2..], drop);
          forall i | 0 <= i < |s| && !drop(s[i]) ensures s[i] in Sweep(s, drop) {
            if i >= 2 {
              assert s[i] == s[2..][i - 2];
            }
          }
        }
      } else {
        SweepKeepsOthers(s[1..], drop);
        forall i | 0 <= i < |s| && !drop(s[i]) ensures s[i] in Sweep(s, drop) {
          if i >= 1 {
            assert s[i] == s[1..][i - 1];
          }
        }
      }
    }
  }

  /** Of two adjacent elements that should both go, the second survives. */
  lemma SweepMissesNeighbour<T>(a: T, b: T, c: seq<T>, drop: T -> bool)
    requires drop(a) && drop(b)
    ensures Sweep([a, b] + c, drop) == [b] + Sweep(c, drop)
  {
    assert ([a, b] + c)[2..] == c;
  }
}
