/** Facts about lists of product ids that the cart model relies on: the first
    occurrence of a value, removal of that first occurrence, the distinct values
    of a list in order of first appearance, and how often each of them occurs. */
module Seqs {

  datatype Option<T> = None | Some(value: T)

  /** Position of the first occurrence of x in s. */
  function IndexOf(s: seq<int>, x: int): (i: nat)
    requires x in s
    ensures i < |s| && s[i] == x && x !in s[..i]
  {
    if s[0] == x then 0
    else
      var j := IndexOf(s[1..], x);
      assert s[..j + 1] == [s[0]] + s[1..][..j];
      1 + j
  }

  /** Any position holding x with no x before it is the first occurrence. */
  lemma IndexOfIsFirst(s: seq<int>, x: int, p: nat)
    requires p < |s| && s[p] == x && x !in s[..p]
    ensures IndexOf(s, x) == p
  {
  }

  /** s with its first occurrence of x taken out; s itself when x does not occur. */
  function RemoveFirst(s: seq<int>, x: int): seq<int>
  {
    if s == [] then []
    else if s[0] == x then s[1..]
    else [s[0]] + RemoveFirst(s[1..], x)
  }

  /** Removing the first occurrence cuts exactly that one position out of s. */
  lemma {:induction false} RemoveFirstCuts(s: seq<int>, x: int)
    ensures x !in s ==> RemoveFirst(s, x) == s
    ensures x in s ==> RemoveFirst(s, x) == s[..IndexOf(s, x)] + s[IndexOf(s, x) + 1..]
  {
    if s != [] && s[0] != x {
      var t := s[1..];
      RemoveFirstCuts(t, x);
      if x in s {
        assert x in t;
        var j := IndexOf(t, x);
        assert IndexOf(s, x) == j + 1;
        calc {
          RemoveFirst(s, x);
          [s[0]] + RemoveFirst(t, x);
          [s[0]] + (t[..j] + t[j + 1..]);
          { assert s[..j + 1] == [s[0]] + t[..j]; assert s[j + 2..] == t[j + 1..]; }
          s[..j + 1] + s[j + 2..];
        }
      } else {
        assert x !in t;
        assert s == [s[0]] + t;
      }
    }
  }

  /** Removing the first occurrence lowers the multiplicity of x by one (if it
      occurs at all) and leaves every other value's multiplicity alone. */
  lemma {:induction false} RemoveFirstMultiset(s: seq<int>, x: int)
    ensures multiset(RemoveFirst(s, x)) == multiset(s) - multiset{x}
  {
    if s != [] {
      assert s == [s[0]] + s[1..];
      if s[0] != x {
        RemoveFirstMultiset(s[1..], x);
        assert RemoveFirst(s, x) == [s[0]] + RemoveFirst(s[1..], x);
      }
    }
  }

  predicate NoDuplicates(s: seq<int>)
  {
    forall i, j :: 0 <= i < j < |s| ==> s[i] != s[j]
  }

  function Elements(s: seq<int>): set<int>
  {
    set x | x in s
  }

  /** The distinct values of s, each where it first appears. */
  function Distinct(s: seq<int>): seq<int>
  {
    if s == [] then []
    else
      var d := Distinct(s[..|s| - 1]);
      if s[|s| - 1] in d then d else d + [s[|s| - 1]]
  }

  /** Appending a value leaves the first occurrence of every earlier value where it was. */
  lemma IndexOfAppend(s: seq<int>, x: int, y: int)
    requires y in s
    ensures IndexOf(s + [x], y) == IndexOf(s, y)
  {
    var p := IndexOf(s, y);
    assert (s + [x])[..p] == s[..p];
    IndexOfIsFirst(s + [x], y, p);
  }

  /** Distinct(s) holds exactly the values of s, each once. */
  lemma {:induction false} DistinctElements(s: seq<int>)
    ensures forall x :: x in Distinct(s) <==> x in s
    ensures Elements(Distinct(s)) == Elements(s)
    ensures NoDuplicates(Distinct(s))
    ensures |Distinct(s)| == |Elements(s)|
  {
    if s != [] {
      var s', x := s[..|s| - 1], s[|s| - 1];
      DistinctElements(s');
      assert s == s' + [x];
      assert Elements(s) == Elements(s') + {x};
      if x !in Distinct(s') {
        assert x !in Elements(s');
      }
    }
  }

  /** Distinct(s) lists the values of s in order of their first appearance. */
  lemma {:induction false} DistinctOrder(s: seq<int>)
    ensures forall i, j :: 0 <= i < j < |Distinct(s)| ==>
      Distinct(s)[i] in s && Distinct(s)[j] in s &&
      IndexOf(s, Distinct(s)[i]) < IndexOf(s, Distinct(s)[j])
  {
    if s == [] {
      assert Distinct(s) == [];
    } else {
      var s', x := s[..|s| - 1], s[|s| - 1];
      DistinctOrder(s');
      DistinctElements(s');
      assert s == s' + [x];
      var d', d := Distinct(s'), Distinct(s);
      forall i, j | 0 <= i < j < |d|
        ensures d[i] in s && d[j] in s && IndexOf(s, d[i]) < IndexOf(s, d[j])
      {
        DistinctOrderStep(s', x, i, j);
      }
    }
  }

  /** One step of DistinctOrder: appending x to s' keeps the order of the
      values already seen and, when x is new, puts it last. */
  lemma DistinctOrderStep(s': seq<int>, x: int, i: nat, j: nat)
    requires forall i, j :: 0 <= i < j < |Distinct(s')| ==>
      Distinct(s')[i] in s' && Distinct(s')[j] in s' &&
      IndexOf(s', Distinct(s')[i]) < IndexOf(s', Distinct(s')[j])
    requires forall y :: y in Distinct(s') <==> y in s'
    requires i < j < |Distinct(s' + [x])|
    ensures Distinct(s' + [x])[i] in s' + [x] && Distinct(s' + [x])[j] in s' + [x]
    ensures IndexOf(s' + [x], Distinct(s' + [x])[i]) < IndexOf(s' + [x], Distinct(s' + [x])[j])
  {
    var s := s' + [x];
    assert s[..|s| - 1] == s';
    var d', d := Distinct(s'), Distinct(s);
    assert d == if x in d' then d' else d' + [x];
    assert d[i] == d'[i] && d[i] in s';
    IndexOfAppend(s', x, d[i]);
    if j < |d'| {
      assert d[j] == d'[j] && d[j] in s';
      IndexOfAppend(s', x, d[j]);
    } else {
      assert d[j] == x && x !in s';
      IndexOfIsFirst(s, x, |s| - 1);
    }
  }

  /** Sum, over the values listed in keys, of how often each occurs in s. */
  function TotalCount(keys: seq<int>, s: seq<int>): nat
  {
    if keys == [] then 0
    else TotalCount(keys[..|keys| - 1], s) + multiset(s)[keys[|keys| - 1]]
  }

  lemma {:induction false} TotalCountAppend(keys: seq<int>, s: seq<int>, x: int)
    requires NoDuplicates(keys)
    ensures TotalCount(keys, s + [x]) == TotalCount(keys, s) + (if x in keys then 1 else 0)
  {
    if keys != [] {
      var k' := keys[..|keys| - 1];
      assert NoDuplicates(k');
      TotalCountAppend(k', s, x);
      assert keys == k' + [keys[|keys| - 1]];
      assert x == keys[|keys| - 1] ==> x !in k';
    }
  }

  /** The occurrence counts of the distinct values of s add up to the length of s. */
  lemma {:induction false} CountsCoverList(s: seq<int>)
    ensures TotalCount(Distinct(s), s) == |s|
  {
    if s != [] {
      var s', x := s[..|s| - 1], s[|s| - 1];
      assert s == s' + [x];
      CountsCoverList(s');
      DistinctElements(s');
      var d' := Distinct(s');
      TotalCountAppend(d', s', x);
      if x !in d' {
        assert x !in Elements(s');
        assert (d' + [x])[..|d'|] == d';
        assert multiset(s')[x] == 0;
      }
    }
  }
}
