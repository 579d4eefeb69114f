/**
 * The data behind the two charts (app.js `renderCharts` and `groupBy`): the
 * records grouped by category, the current value of each group and its net
 * gain. Drawing the charts is not modelled.
 */
module Charts {
  import opened Lists
  import opened Investments

  /** `groupBy(arr, keyFn)`: a left fold that pushes each element onto its key's group. */
  function GroupBy<T>(s: seq<T>, key: T -> string): (r: map<string, seq<T>>)
    ensures forall k :: k in r ==> r[k] != []
    ensures forall x :: x in s ==> key(x) in r
  {
    if s == [] then map[]
    else
      var acc := GroupBy(s[..|s| - 1], key);
      var x := s[|s| - 1];
      var k := key(x);
      acc[k := (if k in acc then acc[k] else []) + [x]]
  }

  /** The predicate "has key `k`" used to describe one group. */
  function HasKey<T>(key: T -> string, k: string): T -> bool
  {
    x => key(x) == k
  }

  /** Filtering an extended list: the new element is kept at the end if it qualifies. */
  lemma KeepSnoc<T>(s: seq<T>, x: T, p: T -> bool)
    ensures Keep(s + [x], p) == Keep(s, p) + (if p(x) then [x] else [])
  {
    KeepAppend(s, [x], p);
    assert [x][1..] == [];
  }

  /**
   * Each group of `groupBy` holds exactly the elements with that key, in input
   * order, and a key has a group exactly when some element has that key.
   */
  lemma {:induction false} GroupBySpec<T>(s: seq<T>, key: T -> string, k: string)
    ensures k in GroupBy(s, key) <==> Keep(s, HasKey(key, k)) != []
    ensures k in GroupBy(s, key) ==> GroupBy(s, key)[k] == Keep(s, HasKey(key, k))
  {
    if s != [] {
      var init, x := s[..|s| - 1], s[|s| - 1];
      assert s == init + [x];
      GroupBySpec(init, key, k);
      KeepSnoc(init, x, HasKey(key, k));
    }
  }

  /** Every element lands in the group of its own key and in no other group. */
  lemma GroupByMember<T>(s: seq<T>, key: T -> string, x: T, k: string)
    ensures x in s ==> key(x) in GroupBy(s, key) && x in GroupBy(s, key)[key(x)]
    ensures k in GroupBy(s, key) && x in GroupBy(s, key)[k] ==> x in s && key(x) == k
  {
    GroupBySpec(s, key, key(x));
    GroupBySpec(s, key, k);
    KeepMembers(s, HasKey(key, key(x)), x);
    KeepMembers(s, HasKey(key, k), x);
  }

  /**
   * `Object.keys(groupBy(...))`: the distinct keys in the order their groups
   * were created, which is the order of first occurrence.
   */
  function Labels<T>(s: seq<T>, key: T -> string): (r: seq<string>)
    ensures forall k :: k in r <==> k in GroupBy(s, key)
    ensures Distinct(r)
  {
    if s == [] then []
    else
      var r := Labels(s[..|s| - 1], key);
      var k := key(s[|s| - 1]);
      if k in r then r else r + [k]
  }

  /** The key `renderCharts` groups by: the category, or "Other" when it is empty. */
  function CategoryKey(inv: Investment): string
  {
    if inv.category == "" then "Other" else inv.category
  }

  /** A record's net gain as the bar chart sums it. */
  function Net(inv: Investment): real
  {
    Current(inv) - Invested(inv)
  }

  /** `catLabels.map(k => byCat[k].reduce((s, i) => s + f(i), 0))`. */
  function GroupTotals<T>(labels: seq<string>, groups: map<string, seq<T>>, f: T -> real): (r: seq<real>)
    requires forall k :: k in labels ==> k in groups
    ensures |r| == |labels|
    ensures forall i :: 0 <= i < |labels| ==> r[i] == SumOf(groups[labels[i]], f)
  {
    if labels == [] then [] else [SumOf(groups[labels[0]], f)] + GroupTotals(labels[1..], groups, f)
  }

  /** The total for each label is the sum over the elements of the input that have that key. */
  lemma {:induction false} GroupTotalsAreGroupSums<T>(s: seq<T>, key: T -> string, f: T -> real)
    ensures var labels := Labels(s, key);
      forall i :: 0 <= i < |labels| ==>
        GroupTotals(labels, GroupBy(s, key), f)[i] == SumOf(Keep(s, HasKey(key, labels[i])), f)
  {
    var labels := Labels(s, key);
    forall i | 0 <= i < |labels|
      ensures GroupTotals(labels, GroupBy(s, key), f)[i] == SumOf(Keep(s, HasKey(key, labels[i])), f)
    {
      GroupBySpec(s, key, labels[i]);
    }
  }

  /** The pie chart's data: current value per category. */
  function CategoryValues(list: seq<Investment>): (r: seq<real>)
    ensures |r| == |Labels(list, CategoryKey)|
    ensures forall i :: 0 <= i < |r| ==>
      r[i] == SumOf(Keep(list, HasKey(CategoryKey, Labels(list, CategoryKey)[i])), Current)
  {
    GroupTotalsAreGroupSums(list, CategoryKey, Current);
    GroupTotals(Labels(list, CategoryKey), GroupBy(list, CategoryKey), Current)
  }

  /** The bar chart's data: net gain per category. */
  function CategoryNets(list: seq<Investment>): (r: seq<real>)
    ensures |r| == |Labels(list, CategoryKey)|
    ensures forall i :: 0 <= i < |r| ==>
      r[i] == SumOf(Keep(list, HasKey(CategoryKey, Labels(list, CategoryKey)[i])), Net)
  {
    GroupTotalsAreGroupSums(list, CategoryKey, Net);
    GroupTotals(Labels(list, CategoryKey), GroupBy(list, CategoryKey), Net)
  }

  /** The sum of a list of chart values, left to right. */
  function Total(xs: seq<real>): real
  {
    if xs == [] then 0.0 else xs[0] + Total(xs[1..])
  }

  /** The sum, over a list of keys, of the totals of the elements having each key. */
  function KeyedSum<T>(labels: seq<string>, s: seq<T>, key: T -> string, f: T -> real): real
  {
    if labels == [] then 0.0
    else SumOf(Keep(s, HasKey(key, labels[0])), f) + KeyedSum(labels[1..], s, key, f)
  }

  /** Adding one element in front adds its value once, when its key is among distinct labels. */
  lemma {:induction false} KeyedSumCons<T>(labels: seq<string>, x: T, s: seq<T>, key: T -> string, f: T -> real)
    requires Distinct(labels)
    ensures KeyedSum(labels, [x] + s, key, f) == (if key(x) in labels then f(x) else 0.0) + KeyedSum(labels, s, key, f)
  {
    if labels != [] {
      var p := HasKey(key, labels[0]);
      assert ([x] + s)[1..] == s;
      if p(x) {
        SumOfCons(x, Keep(s, p), f);
      }
      assert key(x) == labels[0] ==> key(x) !in labels[1..];
      KeyedSumCons(labels[1..], x, s, key, f);
    }
  }

  /** Over distinct labels covering every key, the per-key totals add up to the overall total. */
  lemma {:induction false} KeyedSumTotal<T>(labels: seq<string>, s: seq<T>, key: T -> string, f: T -> real)
    requires Distinct(labels)
    requires forall x :: x in s ==> key(x) in labels
    ensures KeyedSum(labels, s, key, f) == SumOf(s, f)
  {
    if s == [] {
      KeyedSumEmpty(labels, key, f);
    } else {
      assert s == [s[0]] + s[1..];
      KeyedSumCons(labels, s[0], s[1..], key, f);
      KeyedSumTotal(labels, s[1..], key, f);
      SumOfCons(s[0], s[1..], f);
    }
  }

  /** Grouping nothing gives a zero total whatever the labels. */
  lemma {:induction false} KeyedSumEmpty<T>(labels: seq<string>, key: T -> string, f: T -> real)
    ensures KeyedSum(labels, [], key, f) == 0.0
  {
    if labels != [] {
      KeyedSumEmpty(labels[1..], key, f);
    }
  }

  /** The chart totals are the keyed sums over the grouped list. */
  lemma {:induction false} GroupTotalsAreKeyedSums<T>(labels: seq<string>, s: seq<T>, key: T -> string, f: T -> real)
    requires forall k :: k in labels ==> k in GroupBy(s, key)
    ensures Total(GroupTotals(labels, GroupBy(s, key), f)) == KeyedSum(labels, s, key, f)
  {
    if labels != [] {
      GroupBySpec(s, key, labels[0]);
      GroupTotalsAreKeyedSums(labels[1..], s, key, f);
    }
  }

  /** Whatever is summed per category, the categories' totals add up to the total over the list. */
  lemma CategoryTotalsAddUp(list: seq<Investment>, f: Investment -> real)
    ensures Total(GroupTotals(Labels(list, CategoryKey), GroupBy(list, CategoryKey), f)) == SumOf(list, f)
  {
    var labels := Labels(list, CategoryKey);
    forall x | x in list ensures CategoryKey(x) in labels {
      GroupByMember(list, CategoryKey, x, CategoryKey(x));
    }
    GroupTotalsAreKeyedSums(labels, list, CategoryKey, f);
    KeyedSumTotal(labels, list, CategoryKey, f);
  }

  /** The pie chart's slices add up to the summary's current total. */
  lemma CategoryValuesAddUp(list: seq<Investment>)
    ensures Total(CategoryValues(list)) == ComputeSummary(list).current
  {
    CategoryTotalsAddUp(list, Current);
  }

  /** The bar chart's bars add up to the summary's net gain. */
  lemma CategoryNetsAddUp(list: seq<Investment>)
    ensures Total(CategoryNets(list)) == ComputeSummary(list).net
  {
    CategoryTotalsAddUp(list, Net);
    SumOfDifference(list, Current, Invested, Net);
  }

  /** Counts one per element, so that `SumOf(s, One)` is the length of `s` (used by `GroupSizesAddUp`). */
  function One<T>(x: T): real
  {
    1.0
  }

  /** Summing `One` over a list counts its elements. */
  lemma {:induction false} SumOfOne<T>(s: seq<T>)
    ensures SumOf(s, One) == |s| as real
  {
    if s != [] {
      SumOfOne(s[..|s| - 1]);
    }
  }

  /** The group sizes add up to the length of the input: no element is lost or counted twice. */
  lemma GroupSizesAddUp<T>(s: seq<T>, key: T -> string)
    ensures var labels, groups := Labels(s, key), GroupBy(s, key);
      && (forall i :: 0 <= i < |labels| ==> GroupTotals(labels, groups, One)[i] == |groups[labels[i]]| as real)
      && Total(GroupTotals(labels, groups, One)) == |s| as real
  {
    var labels, groups := Labels(s, key), GroupBy(s, key);
    forall i | 0 <= i < |labels| ensures GroupTotals(labels, groups, One)[i] == |groups[labels[i]]| as real {
      SumOfOne(groups[labels[i]]);
    }
    forall x | x in s ensures key(x) in labels {
      GroupByMember(s, key, x, key(x));
    }
    GroupTotalsAreKeyedSums(labels, s, key, One);
    KeyedSumTotal(labels, s, key, One);
    SumOfOne(s);
  }
}
