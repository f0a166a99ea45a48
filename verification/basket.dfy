/** The shopping basket held in the `basket` cookie, and the two handlers that
    change it: POST /add-cart and POST /remove-cart.

    The cookie holds a PHP array of product ids. A PHP array is an ordered map:
    each position has a key, `unset` removes one key and leaves the keys of the
    others as they were, and the JSON round trip through the cookie keeps those
    keys (a list with holes is written as a JSON object). So the basket is kept
    here as its slots in iteration order, each with its key and its product id.
    An absent cookie reads as the empty basket. PHP arrays are values, so the
    in-place updates `$basket[] = $id` and `unset($basket[$k])` are functions
    from the old array to the new one. */
module Basket {
  import opened Seqs

  /** One element of the PHP array: its key and the product id stored there. */
  datatype Slot = Slot(index: nat, id: int)

  /** The slots of the array in iteration order. */
  type Basket = seq<Slot>

  /** The product ids of the basket, in iteration order (what `foreach` and
      `array_search` see). */
  function Ids(b: Basket): seq<int>
  {
    seq(|b|, p requires 0 <= p < |b| => b[p].id)
  }

  /** The keys of a PHP array are pairwise distinct; every basket decoded
      from a cookie has this shape. */
  predicate UniqueIndices(b: Basket)
  {
    forall p, q :: 0 <= p < q < |b| ==> b[p].index != b[q].index
  }

  /** Keys rise along the iteration order. A list decoded from a JSON array
      has this shape, and both handlers keep it. */
  predicate Ascending(b: Basket)
  {
    forall p, q :: 0 <= p < q < |b| ==> b[p].index < b[q].index
  }

  /** The array json_decode builds from a JSON list: keys 0, 1, 2, ... */
  function FromList(ids: seq<int>): (r: Basket)
    ensures Ids(r) == ids
    ensures forall p :: 0 <= p < |r| ==> r[p].index == p
    ensures UniqueIndices(r) && Ascending(r)
  {
    seq(|ids|, p requires 0 <= p < |ids| => Slot(p, ids[p]))
  }

  /** The key `$basket[] = ...` stores under: one past the largest key in
      use, or 0 for an empty array. */
  function NextIndex(b: Basket): (k: nat)
    ensures forall p :: 0 <= p < |b| ==> b[p].index < k
    ensures b == [] ==> k == 0
    ensures b != [] ==> exists p :: 0 <= p < |b| && b[p].index + 1 == k
  {
    if b == [] then 0
    else
      var rest := NextIndex(b[..|b| - 1]);
      var last := b[|b| - 1].index + 1;
      if last > rest then last else rest
  }

  /** POST /add-cart: the posted itemId is appended to the basket. */
  function AddCart(basket: Basket, itemId: int): (r: Basket)
    ensures Ids(r) == Ids(basket) + [itemId]
    ensures |r| == |basket| + 1 && r[..|basket|] == basket
    ensures r[|basket|] == Slot(NextIndex(basket), itemId)
    ensures multiset(Ids(r)) == multiset(Ids(basket)) + multiset{itemId}
    ensures UniqueIndices(basket) ==> UniqueIndices(r)
    ensures Ascending(basket) ==> Ascending(r)
  {
    var r := basket + [Slot(NextIndex(basket), itemId)];
    assert Ids(r) == Ids(basket) + [itemId];
    assert r[..|basket|] == basket;
    r
  }

  /** `array_search($needle, $basket)` with loose comparison on int ids: the
      key of the first slot, in iteration order, that holds needle; None
      stands for PHP's `false`. */
  function ArraySearch(b: Basket, needle: int): (key: Option<nat>)
    ensures key.None? <==> needle !in Ids(b)
    ensures key.Some? ==> needle in Ids(b) && key.value == b[IndexOf(Ids(b), needle)].index
  {
    if b == [] then None
    else if b[0].id == needle then
      assert Ids(b)[0] == needle;
      Some(b[0].index)
    else
      assert Ids(b) == [b[0].id] + Ids(b[1..]);
      ArraySearch(b[1..], needle)
  }

  /** `unset($basket[$k])`: the slot keyed k goes; every other slot keeps
      its key and its place in the order. */
  function Unset(b: Basket, k: nat): (r: Basket)
    ensures multiset(r) <= multiset(b)
    ensures |r| == (if exists p :: 0 <= p < |b| && b[p].index == k then |b| - 1 else |b|)
  {
    if b == [] then []
    else if b[0].index == k then
      assert b == [b[0]] + b[1..];
      b[1..]
    else
      assert b == [b[0]] + b[1..];
      assert forall p :: 1 <= p < |b| ==> b[1..][p - 1] == b[p];
      [b[0]] + Unset(b[1..], k)
  }

  /** Unsetting a key the array does not hold changes nothing. */
  lemma {:induction false} UnsetAbsent(b: Basket, k: nat)
    requires forall p :: 0 <= p < |b| ==> b[p].index != k
    ensures Unset(b, k) == b
  {
    if b != [] {
      UnsetAbsent(b[1..], k);
    }
  }

  /** Unsetting the key of slot p (the first slot with that key; in a PHP
      array the only one) cuts exactly that slot out. */
  lemma {:induction false} UnsetAt(b: Basket, k: nat, p: nat)
    requires p < |b| && b[p].index == k
    requires forall q :: 0 <= q < p ==> b[q].index != k
    ensures Unset(b, k) == b[..p] + b[p + 1..]
  {
    if p > 0 {
      UnsetAt(b[1..], k, p - 1);
      assert b[..p] == [b[0]] + b[1..][..p - 1];
      assert b[p + 1..] == b[1..][p..];
    }
  }

  /** POST /remove-cart: search for the posted key and unset what the search
      returned. A failed search returns `false`, which PHP reads as key 0. */
  function RemoveCart(basket: Basket, key: int): (r: Basket)
    ensures multiset(r) <= multiset(basket)
    ensures |r| == (if key in Ids(basket) || exists p :: 0 <= p < |basket| && basket[p].index == 0
                    then |basket| - 1 else |basket|)
  {
    var found := ArraySearch(basket, key);
    Unset(basket, if found.Some? then found.value else 0)
  }

  /** Cutting one slot out keeps the keys distinct, or ascending, and cuts
      the same position out of the ids. */
  lemma CutSlot(b: Basket, q: nat)
    requires q < |b|
    ensures Ids(b[..q] + b[q + 1..]) == Ids(b)[..q] + Ids(b)[q + 1..]
    ensures UniqueIndices(b) ==> UniqueIndices(b[..q] + b[q + 1..])
    ensures Ascending(b) ==> Ascending(b[..q] + b[q + 1..])
  {
    var c := b[..q] + b[q + 1..];
    assert forall p :: 0 <= p < |c| ==> c[p] == if p < q then b[p] else b[p + 1];
  }

  /** When the posted key is in the basket, remove-cart cuts out the first
      slot holding it; the surviving slots keep their keys and their order. */
  lemma RemoveCartCuts(basket: Basket, key: int)
    requires UniqueIndices(basket) && key in Ids(basket)
    ensures var q := IndexOf(Ids(basket), key);
      RemoveCart(basket, key) == basket[..q] + basket[q + 1..]
  {
    var q := IndexOf(Ids(basket), key);
    var k := basket[q].index;
    assert ArraySearch(basket, key) == Some(k);
    UnsetAt(basket, k, q);
  }

  /** When the posted key is in the basket, remove-cart takes out exactly one
      unit of it, at its first occurrence: the key's multiplicity drops by
      one, every other id's multiplicity stays, and the order of the rest is
      kept. */
  lemma RemoveCartPresent(basket: Basket, key: int)
    requires UniqueIndices(basket) && key in Ids(basket)
    ensures Ids(RemoveCart(basket, key)) == RemoveFirst(Ids(basket), key)
    ensures multiset(Ids(RemoveCart(basket, key))) == multiset(Ids(basket)) - multiset{key}
    ensures UniqueIndices(RemoveCart(basket, key))
    ensures Ascending(basket) ==> Ascending(RemoveCart(basket, key))
  {
    var ids, q := Ids(basket), IndexOf(Ids(basket), key);
    RemoveCartCuts(basket, key);
    CutSlot(basket, q);
    RemoveFirstCuts(ids, key);
    RemoveFirstMultiset(ids, key);
  }

  /** When the posted key is not in the basket, `array_search` returns false
      and `unset($basket[false])` removes key 0: the slot keyed 0 goes if the
      basket still has one, otherwise the basket is left as it is. In a
      basket whose keys ascend, the slot keyed 0 can only be the first. */
  lemma RemoveCartAbsent(basket: Basket, key: int)
    requires key !in Ids(basket)
    ensures (forall p :: 0 <= p < |basket| ==> basket[p].index != 0) ==> RemoveCart(basket, key) == basket
    ensures forall p :: 0 <= p < |basket| && basket[p].index == 0 && UniqueIndices(basket) ==>
      RemoveCart(basket, key) == basket[..p] + basket[p + 1..]
    ensures Ascending(basket) && basket != [] && basket[0].index == 0 ==> RemoveCart(basket, key) == basket[1..]
  {
    if forall p :: 0 <= p < |basket| ==> basket[p].index != 0 {
      UnsetAbsent(basket, 0);
    }
    forall p | 0 <= p < |basket| && basket[p].index == 0 && UniqueIndices(basket)
      ensures RemoveCart(basket, key) == basket[..p] + basket[p + 1..]
    {
      UnsetAt(basket, 0, p);
    }
  }

  /** Adding an id and then removing it gives back the same multiset of ids. */
  lemma AddThenRemove(basket: Basket, itemId: int)
    requires UniqueIndices(basket)
    ensures multiset(Ids(RemoveCart(AddCart(basket, itemId), itemId))) == multiset(Ids(basket))
  {
    var added := AddCart(basket, itemId);
    assert itemId in Ids(added) by {
      assert Ids(added)[|basket|] == itemId;
    }
    RemoveCartPresent(added, itemId);
  }

  /** When the id was not in the basket before, adding it and removing it
      gives back the very same basket, keys included. */
  lemma AddNewThenRemove(basket: Basket, itemId: int)
    requires UniqueIndices(basket) && itemId !in Ids(basket)
    ensures RemoveCart(AddCart(basket, itemId), itemId) == basket
  {
    var added := AddCart(basket, itemId);
    var ids' := Ids(added);
    assert ids'[..|basket|] == Ids(basket) && ids'[|basket|] == itemId;
    IndexOfIsFirst(ids', itemId, |basket|);
    RemoveCartCuts(added, itemId);
    assert added[|basket| + 1..] == [];
  }

  /** Adding to a basket [1, 1] gives [1, 1, 2] under keys 0, 1, 2. */
  lemma AddCartExample()
    ensures AddCart(FromList([1, 1]), 2) == FromList([1, 1, 2])
  {
    assert NextIndex(FromList([1, 1])) == 2;
  }

  /** Removing 1 from [1, 1, 2] leaves [1, 2], still under keys 1 and 2. */
  lemma RemoveCartExample()
    ensures RemoveCart(FromList([1, 1, 2]), 1) == [Slot(1, 1), Slot(2, 2)]
    ensures Ids(RemoveCart(FromList([1, 1, 2]), 1)) == [1, 2]
  {
    var b := FromList([1, 1, 2]);
    assert b == [Slot(0, 1), Slot(1, 1), Slot(2, 2)];
    assert Ids(b)[0] == 1;
    assert ArraySearch(b, 1) == Some(0);
  }

  /** The key 1 is not in [2], yet remove-cart empties the basket: the failed
      search reads as key 0, which holds the 2. The checked variant leaves
      the basket as it is. */
  lemma RemoveAbsentKeyDropsFirstItem()
    ensures RemoveCart(FromList([2]), 1) == []
    ensures RemoveCartChecked(FromList([2]), 1) == FromList([2])
  {
    var b := FromList([2]);
    assert b == [Slot(0, 2)] && Ids(b) == [2];
    assert ArraySearch(b, 1) == None;
  }

  /** remove-cart as it was evidently meant: a key that is not in the basket
      leaves it unchanged, so the call removes one unit of the key if there
      is one and nothing else. */
  function RemoveCartChecked(basket: Basket, key: int): (r: Basket)
    requires UniqueIndices(basket)
    ensures multiset(Ids(r)) == multiset(Ids(basket)) - multiset{key}
    ensures key !in Ids(basket) ==> r == basket
    ensures key in Ids(basket) ==> Ids(r) == RemoveFirst(Ids(basket), key)
    ensures UniqueIndices(r) && (Ascending(basket) ==> Ascending(r))
  {
    match ArraySearch(basket, key)
    case None =>
      assert multiset(Ids(basket))[key] == 0;
      basket
    case Some(k) =>
      RemoveCartPresent(basket, key);
      Unset(basket, k)
  }
}
