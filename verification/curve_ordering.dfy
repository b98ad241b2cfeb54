/** The per-glyph ordering of curve offsets by descending maximum X, which
    lets the shader stop scanning once a curve lies left of the pixel. */
module CurveOrdering {

  /** A glyph-relative curve offset paired with its sort key: the largest X
      among the curve's start, control and end points. */
  datatype Info = Info(offset: nat, key: real)

  /** Keys never increase along `s`. */
  predicate NonIncreasing(s: seq<Info>) {
    forall i, j :: 0 <= i < j < |s| ==> s[i].key >= s[j].key
  }

  /** Offsets strictly increase along `s`: the order curves were emitted in. */
  predicate IncreasingOffsets(s: seq<Info>) {
    forall i, j :: 0 <= i < j < |s| ==> s[i].offset < s[j].offset
  }

  /** Keys descend, and entries with equal keys keep ascending offsets. */
  predicate StablyOrdered(s: seq<Info>) {
    forall i, j :: 0 <= i < j < |s| ==>
      s[i].key > s[j].key || (s[i].key == s[j].key && s[i].offset < s[j].offset)
  }

  /** Places `x` after every entry of larger key and before the first entry
      whose key does not exceed its own. */
  function Insert(x: Info, s: seq<Info>): (r: seq<Info>)
    ensures multiset(r) == multiset(s) + multiset{x}
    ensures |r| == |s| + 1
  {
    if |s| == 0 then [x]
    else if s[0].key <= x.key then [x] + s
    else
      assert s == [s[0]] + s[1..];
      [s[0]] + Insert(x, s[1..])
  }

  /** Every entry of `Insert(x, s)` is `x` or an entry of `s`. */
  lemma InsertMembers(x: Info, s: seq<Info>, i: nat)
    requires i < |Insert(x, s)|
    ensures Insert(x, s)[i] == x || Insert(x, s)[i] in s
  {
    var r := Insert(x, s);
    assert r[i] in multiset(r);
  }

  /** Inserting into a non-increasing sequence keeps it non-increasing. */
  lemma {:induction false} InsertKeepsNonIncreasing(x: Info, s: seq<Info>)
    requires NonIncreasing(s)
    ensures NonIncreasing(Insert(x, s))
  {
    if |s| > 0 && s[0].key > x.key {
      InsertKeepsNonIncreasing(x, s[1..]);
      var r := Insert(x, s);
      var rest := Insert(x, s[1..]);
      assert r == [s[0]] + rest;
      forall i, j | 0 <= i < j < |r| ensures r[i].key >= r[j].key {
        if i == 0 {
          InsertMembers(x, s[1..], j - 1);
        } else {
          assert r[i] == rest[i - 1] && r[j] == rest[j - 1];
        }
      }
    }
  }

  /** The stable sort by descending key that orders a glyph's entries. */
  function SortByKeyDescending(s: seq<Info>): (r: seq<Info>)
    ensures multiset(r) == multiset(s)
    ensures |r| == |s|
    ensures NonIncreasing(r)
  {
    if |s| == 0 then []
    else
      assert s == [s[0]] + s[1..];
      var t := SortByKeyDescending(s[1..]);
      InsertKeepsNonIncreasing(s[0], t);
      Insert(s[0], t)
  }

  /** When `x` goes below the head of `s`, that head is ordered before every
      entry of the insertion into the rest. */
  lemma HeadBeforeInserted(x: Info, s: seq<Info>, j: nat)
    requires StablyOrdered(s)
    requires forall i :: 0 <= i < |s| ==> x.offset < s[i].offset
    requires |s| > 0 && s[0].key > x.key
    requires j < |Insert(x, s[1..])|
    ensures var e := Insert(x, s[1..])[j];
      s[0].key > e.key || (s[0].key == e.key && s[0].offset < e.offset)
  {
    var e := Insert(x, s[1..])[j];
    InsertMembers(x, s[1..], j);
    if e != x {
      var k :| 0 <= k < |s[1..]| && s[1..][k] == e;
      assert s[k + 1] == e;
    }
  }

  /** Inserting an entry whose offset precedes every other keeps ties in
      ascending-offset order. */
  lemma {:induction false} InsertKeepsStableOrder(x: Info, s: seq<Info>)
    requires StablyOrdered(s)
    requires forall i :: 0 <= i < |s| ==> x.offset < s[i].offset
    ensures StablyOrdered(Insert(x, s))
  {
    if |s| > 0 && s[0].key > x.key {
      InsertKeepsStableOrder(x, s[1..]);
      var r := Insert(x, s);
      var rest := Insert(x, s[1..]);
      assert r == [s[0]] + rest;
      forall i, j | 0 <= i < j < |r|
        ensures r[i].key > r[j].key || (r[i].key == r[j].key && r[i].offset < r[j].offset)
      {
        if i == 0 {
          HeadBeforeInserted(x, s, j - 1);
        } else {
          assert r[i] == rest[i - 1] && r[j] == rest[j - 1];
        }
      }
    }
  }

  /** Sorting entries listed in emission order is stable: entries of equal
      key come out in emission order. */
  lemma {:induction false} SortIsStable(s: seq<Info>)
    requires IncreasingOffsets(s)
    ensures StablyOrdered(SortByKeyDescending(s))
  {
    if |s| > 0 {
      SortIsStable(s[1..]);
      var t := SortByKeyDescending(s[1..]);
      forall i | 0 <= i < |t| ensures s[0].offset < t[i].offset {
        assert t[i] in multiset(s[1..]);
        var k :| 0 <= k < |s[1..]| && s[1..][k] == t[i];
      }
      InsertKeepsStableOrder(s[0], t);
    }
  }
}
