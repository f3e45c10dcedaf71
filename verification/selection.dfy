/**
 The picklist's selection: an ordered sequence of option values, in the order they were picked,
 and the toggle rule an item pick applies to it (`updateItemValue` in Picklist.js).
 Values are compared with JavaScript's strict equality, which for the string and integer values
 modelled here is plain equality.
 */
module Selection {

  /** No value occurs twice. */
  predicate NoDup<V(==)>(s: seq<V>) {
    forall i, j :: 0 <= i < j < |s| ==> s[i] != s[j]
  }

  /** `Array.prototype.indexOf`: the first position holding v, or -1 when v is absent. */
  function IndexOf<V(==)>(s: seq<V>, v: V): (r: int)
    ensures r == -1 <==> v !in s
    ensures r != -1 ==> 0 <= r < |s| && s[r] == v
    ensures forall j :: 0 <= j < |s| && s[j] == v ==> r != -1 && r <= j
  {
    if s == [] then -1
    else if s[0] == v then 0
    else
      var k := IndexOf(s[1..], v);
      if k == -1 then -1
      else k + 1
  }

  /** `Array.prototype.splice(i, 1)` on a copy: the sequence without its i-th element. */
  function RemoveAt<V>(s: seq<V>, i: nat): (r: seq<V>)
    requires i < |s|
    ensures |r| == |s| - 1
    ensures multiset(r) == multiset(s) - multiset{s[i]}
    ensures forall k :: 0 <= k < i ==> r[k] == s[k]
    ensures forall k :: i <= k < |r| ==> r[k] == s[k + 1]
  {
    assert s == s[..i] + [s[i]] + s[i + 1..];
    s[..i] + s[i + 1..]
  }

  /**
   The multi-select toggle: a value that is absent is appended; a value that is present loses its
   first occurrence. Either way the result is a fresh sequence.
   */
  function Toggle<V(==)>(s: seq<V>, v: V): (r: seq<V>)
    ensures v !in s ==> |r| == |s| + 1 && r[..|s|] == s && r[|s|] == v
    ensures v in s ==> |r| == |s| - 1 && multiset(r) == multiset(s) - multiset{v}
  {
    var k := IndexOf(s, v);
    if k == -1 then s + [v] else RemoveAt(s, k)
  }

  /** The whole pick rule: toggle in multi-select mode, replace by `[v]` in single-select mode. */
  function Pick<V(==)>(multiSelect: bool, s: seq<V>, v: V): (r: seq<V>)
    ensures !multiSelect ==> r == [v]
    ensures multiSelect ==> r == Toggle(s, v)
    ensures NoDup(s) ==> (v in r <==> !multiSelect || v !in s)
    ensures multiSelect && NoDup(s) ==> NoDup(r)
  {
    if multiSelect then
      var r := Toggle(s, v);
      assert NoDup(s) ==> NoDup(r) && (v in r <==> v !in s) by {
        if NoDup(s) { ToggleKeepsNoDup(s, v); }
      }
      r
    else [v]
  }

  /** The selected flag handed to each rendered option: whether `indexOf` finds its value. */
  function IsSelected<V(==)>(s: seq<V>, v: V): (b: bool)
    ensures b <==> v in s
  {
    IndexOf(s, v) != -1
  }

  /**
   Removing a present value deletes exactly its first occurrence: everything before it and
   everything after it stays, in the same order.
   */
  lemma ToggleRemovesFirstOccurrence<V>(s: seq<V>, v: V)
    requires v in s
    ensures exists i :: 0 <= i < |s| && s[i] == v && (forall j :: 0 <= j < i ==> s[j] != v)
                        && Toggle(s, v) == s[..i] + s[i + 1..]
  {
    var i := IndexOf(s, v);
    assert Toggle(s, v) == s[..i] + s[i + 1..];
  }

  /** A duplicate-free selection stays duplicate-free under a toggle, and the toggled value's membership flips. */
  lemma ToggleKeepsNoDup<V>(s: seq<V>, v: V)
    requires NoDup(s)
    ensures NoDup(Toggle(s, v))
    ensures forall x :: x in Toggle(s, v) <==> if x == v then v !in s else x in s
  {
    var r := Toggle(s, v);
    if v in s {
      var i := IndexOf(s, v);
      assert r == s[..i] + s[i + 1..];
      forall x
        ensures x in r <==> if x == v then v !in s else x in s
      {
        if x in r {
          var k :| 0 <= k < |r| && r[k] == x;
          if k < i { assert s[k] == x; } else { assert s[k + 1] == x; }
        }
        if x in s && x != v {
          var k :| 0 <= k < |s| && s[k] == x;
          if k < i { assert r[k] == x; } else { assert k != i; assert r[k - 1] == x; }
        }
      }
    } else {
      assert r == s + [v];
    }
  }

  /** Picking an absent value twice in multi-select mode gives back the original selection. */
  lemma ToggleTwiceRestores<V>(s: seq<V>, v: V)
    requires v !in s
    ensures Toggle(Toggle(s, v), v) == s
  {
  }

  /** The selection after picking each value of picks in turn, in multi-select mode. */
  function ToggleAll<V(==)>(s: seq<V>, picks: seq<V>): seq<V>
    decreases |picks|
  {
    if picks == [] then s else ToggleAll(Toggle(s, picks[0]), picks[1..])
  }

  /** Whether a value was picked an odd number of times. */
  predicate PickedOddly<V(==)>(picks: seq<V>, x: V) {
    multiset(picks)[x] % 2 == 1
  }

  lemma PickedOddlyCons<V>(v: V, rest: seq<V>, x: V)
    ensures PickedOddly([v] + rest, x) <==> (if x == v then !PickedOddly(rest, x) else PickedOddly(rest, x))
  {
    assert multiset([v] + rest) == multiset{v} + multiset(rest);
  }

  /**
   Over any run of multi-select picks from a duplicate-free selection, the result stays
   duplicate-free and holds exactly the values whose membership was flipped an odd number of
   times: the symmetric-difference reading of the toggle rule.
   */
  lemma {:induction false} ToggleAllIsParity<V>(s: seq<V>, picks: seq<V>)
    requires NoDup(s)
    ensures NoDup(ToggleAll(s, picks))
    ensures forall x :: x in ToggleAll(s, picks) <==> ((x in s) != PickedOddly(picks, x))
    decreases |picks|
  {
    if picks != [] {
      var v := picks[0];
      var rest := picks[1..];
      var t := Toggle(s, v);
      ToggleKeepsNoDup(s, v);
      ToggleAllIsParity(t, rest);
      assert picks == [v] + rest;
      forall x
        ensures x in ToggleAll(s, picks) <==> ((x in s) != PickedOddly(picks, x))
      {
        PickedOddlyCons(v, rest, x);
      }
    } else {
      forall x
        ensures !PickedOddly(picks, x)
      {
        assert multiset(picks)[x] == 0;
      }
    }
  }
}
