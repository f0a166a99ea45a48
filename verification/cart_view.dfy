/** GET /cart: the basket is counted with `array_count_values` and each
    distinct id is joined to the product list by position, one cart line per
    id. A product that fails the name/price/image test does not stop the loop:
    the line built on an earlier pass (or null on the first) is appended again
    in its place. */
module CartView {
  import opened Seqs
  import opened Basket

  /** A column value as PDO hands it over: NULL, an integer or a string. */
  datatype Cell = Null | Int(n: int) | Text(s: string)

  /** PHP truthiness of a column value. */
  predicate CellTruthy(c: Cell)
  {
    match c
    case Null => false
    case Int(n) => n != 0
    case Text(s) => s != "" && s != "0"
  }

  /** A row of the products table. */
  datatype Product = Product(id: int, name: Cell, price: Cell, image: Cell)

  /** One line of the rendered cart. */
  datatype Line = Line(key: int, name: Cell, price: Cell, image: Cell, count: nat)

  /** One entry of the `array_count_values` result: an id and how often it occurs. */
  datatype Tally = Tally(key: int, count: nat)

  /** No two tallies share a key. */
  predicate DistinctKeys(per: seq<Tally>)
  {
    forall i, j :: 0 <= i < j < |per| ==> per[i].key != per[j].key
  }

  /** `array_count_values`: one entry per distinct id of the list, each
      count the number of occurrences of its id (so at least 1). */
  function CountValues(ids: seq<int>): (r: seq<Tally>)
    ensures |r| == |Elements(ids)|
    ensures forall i :: 0 <= i < |r| ==> r[i].key in ids && r[i].count == multiset(ids)[r[i].key] >= 1
    ensures DistinctKeys(r)
  {
    var d := Distinct(ids);
    DistinctElements(ids);
    assert forall i :: 0 <= i < |d| ==> d[i] in d ==> d[i] in ids;
    seq(|d|, i requires 0 <= i < |d| => Tally(d[i], multiset(ids)[d[i]]))
  }

  /** The entries of `array_count_values` come in order of first appearance,
      and every id of the list has its entry. */
  lemma CountValuesOrder(ids: seq<int>)
    ensures forall x :: x in ids ==> exists i :: 0 <= i < |CountValues(ids)| && CountValues(ids)[i].key == x
    ensures forall i, j :: 0 <= i < j < |CountValues(ids)| ==>
      CountValues(ids)[i].key in ids && CountValues(ids)[j].key in ids &&
      IndexOf(ids, CountValues(ids)[i].key) < IndexOf(ids, CountValues(ids)[j].key)
  {
    var d, r := Distinct(ids), CountValues(ids);
    DistinctElements(ids);
    DistinctOrder(ids);
    forall x | x in ids
      ensures exists i :: 0 <= i < |r| && r[i].key == x
    {
      assert r[IndexOf(d, x)].key == x;
    }
  }

  function TallySum(per: seq<Tally>): nat
  {
    if per == [] then 0 else TallySum(per[..|per| - 1]) + per[|per| - 1].count
  }

  lemma {:induction false} TallySumIsTotalCount(ids: seq<int>, keys: seq<int>)
    ensures TallySum(seq(|keys|, i requires 0 <= i < |keys| => Tally(keys[i], multiset(ids)[keys[i]])))
      == TotalCount(keys, ids)
  {
    if keys != [] {
      var n := |keys| - 1;
      var t := seq(|keys|, i requires 0 <= i < |keys| => Tally(keys[i], multiset(ids)[keys[i]]));
      TallySumIsTotalCount(ids, keys[..n]);
      assert t[..n] == seq(n, i requires 0 <= i < n => Tally(keys[..n][i], multiset(ids)[keys[..n][i]]));
    }
  }

  /** The counts of `array_count_values` add up to the length of the basket. */
  lemma CountValuesSum(ids: seq<int>)
    ensures TallySum(CountValues(ids)) == |ids|
  {
    TallySumIsTotalCount(ids, Distinct(ids));
    CountsCoverList(ids);
  }

  /** `$products[$key-1]`: products are looked up by 1-based position, not by
      their id; a position outside the list gives null. */
  function ProductAt(products: seq<Product>, key: int): Option<Product>
  {
    if 1 <= key <= |products| then Some(products[key - 1]) else None
  }

  /** `$product->name && $product->price && $product->image`; on null every
      field reads as null. */
  predicate Resolves(products: seq<Product>, key: int)
  {
    ProductAt(products, key).Some? && var p := ProductAt(products, key).value;
    CellTruthy(p.name) && CellTruthy(p.price) && CellTruthy(p.image)
  }

  /** The line built for one tally when its product passes the test. */
  function Resolve(products: seq<Product>, t: Tally): (r: Option<Line>)
    ensures r.Some? <==>
      (1 <= t.key <= |products| && CellTruthy(products[t.key - 1].name) &&
       CellTruthy(products[t.key - 1].price) && CellTruthy(products[t.key - 1].image))
    ensures r.Some? ==> r.value == Line(t.key, products[t.key - 1].name, products[t.key - 1].price,
      products[t.key - 1].image, t.count)
  {
    if Resolves(products, t.key) then
      var p := products[t.key - 1];
      Some(Line(t.key, p.name, p.price, p.image, t.count))
    else None
  }

  function Last(lines: seq<Option<Line>>): Option<Line>
  {
    if lines == [] then None else lines[|lines| - 1]
  }

  /** The cart lines the foreach loop appends: on each pass the new line when
      the product passes the test, otherwise the line of the pass before (the
      value `$newProduct` still holds), or null on the first pass. */
  function LinesOf(per: seq<Tally>, products: seq<Product>): (lines: seq<Option<Line>>)
    ensures |lines| == |per|
  {
    if per == [] then []
    else
      var before := LinesOf(per[..|per| - 1], products);
      var current := Resolve(products, per[|per| - 1]);
      before + [if current.Some? then current else Last(before)]
  }

  /** What the loop appends on pass i: the resolved line of tally i, or, when
      that tally does not resolve, the line of pass i - 1 (null for i = 0). */
  predicate StepHolds(lines: seq<Option<Line>>, per: seq<Tally>, products: seq<Product>, i: nat)
    requires i < |lines| == |per|
  {
    lines[i] ==
      if Resolve(products, per[i]).Some? then Resolve(products, per[i])
      else if i == 0 then None
      else lines[i - 1]
  }

  /** Line i is a copy of the line before it, or null when it is the first:
      what a pass whose product fails the test appends. */
  predicate RepeatsPrevious(lines: seq<Option<Line>>, i: nat)
    requires i < |lines|
  {
    if i == 0 then lines[i] == None else lines[i] == lines[i - 1]
  }

  /** Every line of LinesOf is what the loop appends on its pass. */
  lemma {:induction false} LinesOfStep(per: seq<Tally>, products: seq<Product>)
    ensures forall i :: 0 <= i < |per| ==> StepHolds(LinesOf(per, products), per, products, i)
  {
    if per != [] {
      var n := |per| - 1;
      LinesOfStep(per[..n], products);
      var before, lines := LinesOf(per[..n], products), LinesOf(per, products);
      assert lines[..n] == before;
      forall i | 0 <= i < |per|
        ensures StepHolds(lines, per, products, i)
      {
        if i < n {
          assert StepHolds(before, per[..n], products, i);
        }
      }
    }
  }

  /** Every line that is not null is the resolved line of some tally at or
      before its own position: a stale copy never invents data. */
  lemma {:induction false} LinesOfOrigin(per: seq<Tally>, products: seq<Product>)
    ensures forall i :: 0 <= i < |per| && LinesOf(per, products)[i].Some? ==>
      exists j :: 0 <= j <= i && LinesOf(per, products)[i] == Resolve(products, per[j])
  {
    if per != [] {
      var n := |per| - 1;
      LinesOfOrigin(per[..n], products);
      var before, lines := LinesOf(per[..n], products), LinesOf(per, products);
      assert lines[..n] == before;
      forall i | 0 <= i < |per| && lines[i].Some?
        ensures exists j :: 0 <= j <= i && lines[i] == Resolve(products, per[j])
      {
        if i < n {
          var j :| 0 <= j <= i && before[i] == Resolve(products, per[..n][j]);
          assert lines[i] == Resolve(products, per[j]);
        } else if Resolve(products, per[n]).Some? {
          assert lines[i] == Resolve(products, per[n]);
        } else {
          var j :| 0 <= j <= n - 1 && before[n - 1] == Resolve(products, per[..n][j]);
          assert lines[i] == Resolve(products, per[j]);
        }
      }
    }
  }

  /** The cart for a basket with ids `ids`: one line per distinct id, in
      order of first appearance; a line that is not null carries an id of the
      basket and its exact number of occurrences. */
  lemma CartLinesCounts(ids: seq<int>, products: seq<Product>)
    ensures |LinesOf(CountValues(ids), products)| == |Elements(ids)| == |Distinct(ids)|
    ensures forall i :: 0 <= i < |LinesOf(CountValues(ids), products)| && LinesOf(CountValues(ids), products)[i].Some? ==>
      LinesOf(CountValues(ids), products)[i].value.key in ids &&
      LinesOf(CountValues(ids), products)[i].value.count == multiset(ids)[LinesOf(CountValues(ids), products)[i].value.key] >= 1
  {
    var per := CountValues(ids);
    var lines := LinesOf(per, products);
    LinesOfOrigin(per, products);
    forall i | 0 <= i < |lines| && lines[i].Some?
      ensures lines[i].value.key in ids && lines[i].value.count == multiset(ids)[lines[i].value.key] >= 1
    {
      var j :| 0 <= j <= i && lines[i] == Resolve(products, per[j]);
      assert lines[i].value.key == per[j].key && lines[i].value.count == per[j].count;
    }
  }

  /** The cart line for the i-th distinct id: when its product passes the
      test, the line takes name, price and image from the product at position
      id - 1 and counts the id's occurrences; when it fails, the line repeats
      the line before, or is null for the first id. */
  lemma CartLinesJoin(ids: seq<int>, products: seq<Product>)
    ensures |LinesOf(CountValues(ids), products)| == |Distinct(ids)|
    ensures forall i :: 0 <= i < |Distinct(ids)| && Resolves(products, Distinct(ids)[i]) ==>
      var k := Distinct(ids)[i];
      LinesOf(CountValues(ids), products)[i] ==
        Some(Line(k, products[k - 1].name, products[k - 1].price, products[k - 1].image, multiset(ids)[k]))
    ensures forall i :: 0 <= i < |Distinct(ids)| && !Resolves(products, Distinct(ids)[i]) ==>
      RepeatsPrevious(LinesOf(CountValues(ids), products), i)
  {
    var per, d := CountValues(ids), Distinct(ids);
    var lines := LinesOf(per, products);
    LinesOfStep(per, products);
    forall i | 0 <= i < |d|
      ensures Resolves(products, d[i]) ==>
        lines[i] == Some(Line(d[i], products[d[i] - 1].name, products[d[i] - 1].price, products[d[i] - 1].image,
                              multiset(ids)[d[i]]))
      ensures !Resolves(products, d[i]) ==> RepeatsPrevious(lines, i)
    {
      assert per[i] == Tally(d[i], multiset(ids)[d[i]]);
      assert StepHolds(lines, per, products, i);
    }
  }

  /** Sum of the counts of the lines that are not null. */
  function LineCountSum(lines: seq<Option<Line>>): nat
  {
    if lines == [] then 0
    else LineCountSum(lines[..|lines| - 1]) + (if lines[|lines| - 1].Some? then lines[|lines| - 1].value.count else 0)
  }

  lemma {:induction false} LineCountSumResolved(per: seq<Tally>, products: seq<Product>)
    requires forall i :: 0 <= i < |per| ==> Resolves(products, per[i].key)
    ensures forall i :: 0 <= i < |per| ==> LinesOf(per, products)[i] == Resolve(products, per[i])
    ensures LineCountSum(LinesOf(per, products)) == TallySum(per)
  {
    if per != [] {
      var n := |per| - 1;
      LineCountSumResolved(per[..n], products);
      var lines := LinesOf(per, products);
      assert lines[..n] == LinesOf(per[..n], products);
    }
  }

  /** When every id of the basket has a product that passes the test, the
      cart has a real line for each distinct id, keyed by that id in order of
      first appearance, and the counts of the lines add up to the number of
      items in the basket. */
  lemma AllResolvedCart(ids: seq<int>, products: seq<Product>)
    requires forall x :: x in ids ==> Resolves(products, x)
    ensures |LinesOf(CountValues(ids), products)| == |Distinct(ids)|
    ensures forall i :: 0 <= i < |Distinct(ids)| ==>
      LinesOf(CountValues(ids), products)[i].Some? &&
      LinesOf(CountValues(ids), products)[i].value.key == Distinct(ids)[i]
    ensures LineCountSum(LinesOf(CountValues(ids), products)) == |ids|
  {
    var per := CountValues(ids);
    CountValuesSum(ids);
    LineCountSumResolved(per, products);
  }

  /** A basket [1, 1, 2] with two complete products: one line for id 1 with
      count 2, then one for id 2 with count 1. */
  lemma CartExample(a: Product, b: Product)
    requires CellTruthy(a.name) && CellTruthy(a.price) && CellTruthy(a.image)
    requires CellTruthy(b.name) && CellTruthy(b.price) && CellTruthy(b.image)
    ensures LinesOf(CountValues([1, 1, 2]), [a, b]) ==
      [Some(Line(1, a.name, a.price, a.image, 2)), Some(Line(2, b.name, b.price, b.image, 1))]
  {
    assert [1, 1, 2][..2] == [1, 1] && [1, 1][..1] == [1] && [1][..0] == [];
    assert Distinct([1, 1, 2]) == [1, 2];
    var per := CountValues([1, 1, 2]);
    assert multiset([1, 1, 2])[1] == 2 && multiset([1, 1, 2])[2] == 1;
    assert per == [Tally(1, 2), Tally(2, 1)];
    assert per[..1] == [Tally(1, 2)] && per[..1][..0] == [];
  }

  /** A basket [1, 3] with two complete products: id 3 has no product at
      position 3, so the loop appends the line of id 1 a second time and the
      cart shows id 1 twice. The skipping variant shows it once. */
  lemma StaleLineRepeated(a: Product, b: Product)
    requires CellTruthy(a.name) && CellTruthy(a.price) && CellTruthy(a.image)
    ensures var line := Line(1, a.name, a.price, a.image, 1);
      LinesOf(CountValues([1, 3]), [a, b]) == [Some(line), Some(line)] &&
      SkippingLinesOf(CountValues([1, 3]), [a, b]) == [line]
  {
    assert [1, 3][..1] == [1] && [1][..0] == [];
    assert Distinct([1, 3]) == [1, 3];
    var per := CountValues([1, 3]);
    assert per == [Tally(1, 1), Tally(3, 1)];
    assert per[..1] == [Tally(1, 1)] && per[..1][..0] == [];
    assert Resolve([a, b], per[1]) == None;
    assert SkippingLinesOf(per[..1][..0], [a, b]) == [];
    assert SkippingLinesOf(per[..1], [a, b]) == [Line(1, a.name, a.price, a.image, 1)];
  }

  /** A basket [3, 1]: the first pass fails, so the first line is null. */
  lemma FirstLineNull(a: Product, b: Product)
    requires CellTruthy(a.name) && CellTruthy(a.price) && CellTruthy(a.image)
    ensures LinesOf(CountValues([3, 1]), [a, b]) == [None, Some(Line(1, a.name, a.price, a.image, 1))]
  {
    assert [3, 1][..1] == [3] && [3][..0] == [];
    assert Distinct([3, 1]) == [3, 1];
    var per := CountValues([3, 1]);
    assert per == [Tally(3, 1), Tally(1, 1)];
    assert per[..1] == [Tally(3, 1)] && per[..1][..0] == [];
  }

  /** The aggregation as it was evidently meant: a key whose product fails
      the test is skipped. */
  function SkippingLinesOf(per: seq<Tally>, products: seq<Product>): (lines: seq<Line>)
    ensures |lines| <= |per|
    ensures forall k :: 0 <= k < |lines| ==> Resolves(products, lines[k].key)
  {
    if per == [] then []
    else
      var before := SkippingLinesOf(per[..|per| - 1], products);
      var current := Resolve(products, per[|per| - 1]);
      if current.Some? then before + [current.value] else before
  }

  /** Skipping keeps only real lines, and all of them: every line is the
      resolved line of some tally, and every tally that resolves has its
      line. */
  lemma {:induction false} SkippingLinesSpec(per: seq<Tally>, products: seq<Product>)
    ensures forall k :: 0 <= k < |SkippingLinesOf(per, products)| ==>
      exists j :: 0 <= j < |per| && Resolve(products, per[j]) == Some(SkippingLinesOf(per, products)[k])
    ensures forall j :: 0 <= j < |per| && Resolve(products, per[j]).Some? ==>
      Resolve(products, per[j]).value in SkippingLinesOf(per, products)
  {
    if per == [] {
      assert SkippingLinesOf(per, products) == [];
    } else {
      var n := |per| - 1;
      SkippingLinesSpec(per[..n], products);
      var before, lines := SkippingLinesOf(per[..n], products), SkippingLinesOf(per, products);
      var current := Resolve(products, per[n]);
      assert forall j :: 0 <= j < n ==> per[..n][j] == per[j];
      assert lines == if current.Some? then before + [current.value] else before;
      forall k | 0 <= k < |lines|
        ensures exists j :: 0 <= j < |per| && Resolve(products, per[j]) == Some(lines[k])
      {
        if k < |before| {
          var j :| 0 <= j < n && Resolve(products, per[..n][j]) == Some(before[k]);
          assert Resolve(products, per[j]) == Some(lines[k]);
        } else {
          assert Resolve(products, per[n]) == Some(lines[k]);
        }
      }
    }
  }

  /** Skipping shows no key twice when the tallies have distinct keys, as
      those of `array_count_values` do. */
  lemma {:induction false} SkippingLinesDistinct(per: seq<Tally>, products: seq<Product>)
    requires DistinctKeys(per)
    ensures forall k, m :: 0 <= k < m < |SkippingLinesOf(per, products)| ==>
      SkippingLinesOf(per, products)[k].key != SkippingLinesOf(per, products)[m].key
  {
    if per == [] {
      assert SkippingLinesOf(per, products) == [];
    } else {
      var n := |per| - 1;
      assert DistinctKeys(per[..n]);
      SkippingLinesDistinct(per[..n], products);
      SkippingLinesSpec(per[..n], products);
      var before := SkippingLinesOf(per[..n], products);
      var current := Resolve(products, per[n]);
      assert SkippingLinesOf(per, products) == if current.Some? then before + [current.value] else before;
      if current.Some? {
        forall k | 0 <= k < |before|
          ensures before[k].key != current.value.key
        {
          var j :| 0 <= j < n && Resolve(products, per[..n][j]) == Some(before[k]);
          assert per[..n][j] == per[j];
        }
      }
    }
  }

  /** With the skipping loop the cart never shows an id twice, since the
      keys of `array_count_values` are distinct. */
  lemma SkippingCartDistinct(ids: seq<int>, products: seq<Product>)
    ensures forall k, m :: 0 <= k < m < |SkippingLinesOf(CountValues(ids), products)| ==>
      SkippingLinesOf(CountValues(ids), products)[k].key != SkippingLinesOf(CountValues(ids), products)[m].key
  {
    SkippingLinesDistinct(CountValues(ids), products);
  }

  /** GET /cart: the basket counted by `array_count_values`, then the foreach
      loop over the counts, carrying `$newProduct` from pass to pass. There is
      one line per distinct id, in order of first appearance; a line that is
      not null carries an id of the basket and its exact number of
      occurrences; the line for an id whose product passes the test takes
      name, price and image from the product at position id - 1; the line for
      one that fails repeats the line before, or is null on the first pass. */
  method ViewCart(basket: Basket, products: seq<Product>) returns (lines: seq<Option<Line>>)
    ensures lines == LinesOf(CountValues(Ids(basket)), products)
    ensures |lines| == |Elements(Ids(basket))| == |Distinct(Ids(basket))|
    ensures forall i :: 0 <= i < |lines| && lines[i].Some? ==>
      lines[i].value.key in Ids(basket) &&
      lines[i].value.count == multiset(Ids(basket))[lines[i].value.key] >= 1
    ensures forall i :: 0 <= i < |lines| && Resolves(products, Distinct(Ids(basket))[i]) ==>
      var k := Distinct(Ids(basket))[i];
      lines[i] == Some(Line(k, products[k - 1].name, products[k - 1].price, products[k - 1].image,
                            multiset(Ids(basket))[k]))
    ensures forall i :: 0 <= i < |lines| && !Resolves(products, Distinct(Ids(basket))[i]) ==>
      RepeatsPrevious(lines, i)
  {
    var per := CountValues(Ids(basket));
    lines := [];
    var newProduct: Option<Line> := None;
    var i := 0;
    while i < |per|
      invariant 0 <= i <= |per|
      invariant lines == LinesOf(per[..i], products)
      invariant newProduct == Last(lines)
    {
      var line := Resolve(products, per[i]);
      if line.Some? {
        newProduct := line;
      }
      lines := lines + [newProduct];
      i := i + 1;
      assert per[..i][..i - 1] == per[..i - 1];
    }
    assert per[..|per|] == per;
    CartLinesCounts(Ids(basket), products);
    CartLinesJoin(Ids(basket), products);
  }
}
