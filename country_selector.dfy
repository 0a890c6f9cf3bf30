/**
 * The options of the country dropdown (`createCountryOptions` in
 * src/components/country-selector.js): Germany, Austria and Switzerland
 * first, in that order, then every other country sorted by name; Germany
 * is preselected.
 *
 * The name comparison (`localeCompare`) is a parameter: `before(a, b)`
 * holds when `a` may stay in front of `b`, which is when the comparison
 * is not positive. `Array.prototype.sort` is stable, and the sort here is a
 * stable insertion sort.
 */
module CountrySelector {

  /** One entry of the country list, with its `Name` and `Code`. */
  datatype Country = Country(name: string, code: string)

  /** One `<option>`: its `value`, its text, its `data-code` attribute and
      whether it is selected. */
  datatype CountryOption = CountryOption(value: string, text: string, code: string, selected: bool)

  const PRIORITY_COUNTRIES := ["Germany", "Austria", "Switzerland"]

  predicate IsPriority(c: Country)
  {
    c.name in PRIORITY_COUNTRIES
  }

  predicate NotPriority(c: Country)
  {
    !IsPriority(c)
  }

  /** `priorityCountries.indexOf(name)`, 3 for the others. */
  function Rank(name: string): (r: nat)
    ensures r <= 3
    ensures r < 3 <==> name in PRIORITY_COUNTRIES
    ensures r < 3 ==> PRIORITY_COUNTRIES[r] == name
  {
    if name == "Germany" then 0 else if name == "Austria" then 1 else if name == "Switzerland" then 2 else 3
  }

  // ---------------------------------------------------------------------------
  // filter and a stable sort
  // ---------------------------------------------------------------------------

  /** `filter` */
  function Filter<T>(s: seq<T>, p: T -> bool): (r: seq<T>)
    ensures forall k :: 0 <= k < |r| ==> p(r[k])
    ensures forall x :: x in s && p(x) ==> x in r
  {
    if s == [] then []
    else
      var rest := Filter(s[1..], p);
      assert forall x :: x in s ==> x == s[0] || x in s[1..];
      if p(s[0]) then [s[0]] + rest else rest
  }

  /** A condition and its negation split a sequence's elements between
      them. */
  lemma {:induction false} FilterSplits<T>(s: seq<T>, p: T -> bool, q: T -> bool)
    requires forall x :: q(x) == !p(x)
    ensures multiset(Filter(s, p)) + multiset(Filter(s, q)) == multiset(s)
  {
    if s != [] {
      var a, b := Filter(s[1..], p), Filter(s[1..], q);
      FilterSplits(s[1..], p, q);
      assert s == [s[0]] + s[1..];
      assert multiset(s) == multiset{s[0]} + multiset(s[1..]);
      if p(s[0]) {
        assert Filter(s, p) == [s[0]] + a && Filter(s, q) == b;
        assert multiset(Filter(s, p)) == multiset{s[0]} + multiset(a);
      } else {
        assert Filter(s, p) == a && Filter(s, q) == [s[0]] + b;
        assert multiset(Filter(s, q)) == multiset{s[0]} + multiset(b);
      }
    }
  }

  /** A property of every element of a sequence holds of every element of
      any rearrangement of it. */
  lemma AllRearranged<T>(s: seq<T>, r: seq<T>, p: T -> bool)
    requires multiset(r) == multiset(s)
    requires forall k :: 0 <= k < |s| ==> p(s[k])
    ensures forall k :: 0 <= k < |r| ==> p(r[k])
  {
    forall k | 0 <= k < |r|
      ensures p(r[k])
    {
      assert r[k] in multiset(r);
      assert r[k] in s;
    }
  }

  /** The order in which a comparator lets neighbours stand. */
  predicate Sorted<T>(s: seq<T>, before: (T, T) -> bool)
  {
    forall k :: 0 < k < |s| ==> before(s[k - 1], s[k])
  }

  /** A comparator that can order any two elements (a consistent
      `localeCompare` and the priority index both are). */
  ghost predicate Total<T(!new)>(before: (T, T) -> bool)
  {
    forall a: T, b: T :: before(a, b) || before(b, a)
  }

  /** Insert `x` in front of the first element it may stand before. */
  function Insert<T>(x: T, s: seq<T>, before: (T, T) -> bool): (r: seq<T>)
    ensures multiset(r) == multiset(s) + multiset{x}
    ensures |r| == |s| + 1
    ensures r[0] == x || (s != [] && r[0] == s[0])
  {
    if s == [] || before(x, s[0]) then [x] + s
    else
      assert s == [s[0]] + s[1..];
      [s[0]] + Insert(x, s[1..], before)
  }

  /** The sort of `sort(compare)`: each element is inserted, from the last
      to the first, into the sorted rest. */
  function SortBy<T>(s: seq<T>, before: (T, T) -> bool): (r: seq<T>)
    ensures multiset(r) == multiset(s)
    ensures |r| == |s|
  {
    if s == [] then []
    else
      assert s == [s[0]] + s[1..];
      Insert(s[0], SortBy(s[1..], before), before)
  }

  lemma {:induction false} InsertSorted<T(!new)>(x: T, s: seq<T>, before: (T, T) -> bool)
    requires Total(before) && Sorted(s, before)
    ensures Sorted(Insert(x, s, before), before)
  {
    if s != [] && !before(x, s[0]) {
      var tail := Insert(x, s[1..], before);
      InsertSorted(x, s[1..], before);
      assert before(s[0], x);
      assert |s| > 1 ==> before(s[0], s[1]);
      assert before(s[0], tail[0]);
    }
  }

  /** With a comparator that orders any two elements the result is in its
      order. */
  lemma {:induction false} SortBySorted<T(!new)>(s: seq<T>, before: (T, T) -> bool)
    requires Total(before)
    ensures Sorted(SortBy(s, before), before)
  {
    if s != [] {
      SortBySorted(s[1..], before);
      InsertSorted(s[0], SortBy(s[1..], before), before);
    }
  }

  /** Sorted neighbours under a transitive order are sorted pairs. */
  lemma {:induction false} SortedPairs<T>(s: seq<T>, before: (T, T) -> bool, i: nat, j: nat)
    requires Sorted(s, before)
    requires forall a: T, b: T, c: T :: before(a, b) && before(b, c) ==> before(a, c)
    requires i < j < |s|
    ensures before(s[i], s[j])
    decreases j - i
  {
    if i + 1 < j {
      SortedPairs(s, before, i + 1, j);
    }
  }

  // ---------------------------------------------------------------------------
  // createCountryOptions
  // ---------------------------------------------------------------------------

  /** The priority comparator: `indexOf(a) - indexOf(b)` not positive. */
  function ByRank(): (Country, Country) -> bool
  {
    (a: Country, b: Country) => Rank(a.name) <= Rank(b.name)
  }

  /** The name comparator built from `localeCompare`. */
  function ByName(compare: (string, string) -> int): (Country, Country) -> bool
  {
    (a: Country, b: Country) => compare(a.name, b.name) <= 0
  }

  /** Germany, Austria and Switzerland, in that order. */
  function PriorityPart(countries: seq<Country>): (r: seq<Country>)
    ensures forall k :: 0 <= k < |r| ==> IsPriority(r[k])
    ensures multiset(r) == multiset(Filter(countries, IsPriority))
  {
    var prio := Filter(countries, IsPriority);
    AllRearranged(prio, SortBy(prio, ByRank()), IsPriority);
    SortBy(prio, ByRank())
  }

  /** The other countries, sorted by name. */
  function RemainingPart(countries: seq<Country>, compare: (string, string) -> int): (r: seq<Country>)
    ensures forall k :: 0 <= k < |r| ==> NotPriority(r[k])
    ensures multiset(r) == multiset(Filter(countries, NotPriority))
  {
    var others := Filter(countries, NotPriority);
    AllRearranged(others, SortBy(others, ByName(compare)), NotPriority);
    SortBy(others, ByName(compare))
  }

  /** `[...priority, ...remaining]`: the countries of the input, each as
      often as there. */
  function Ordered(countries: seq<Country>, compare: (string, string) -> int): (r: seq<Country>)
    ensures multiset(r) == multiset(countries)
    ensures |r| == |countries|
  {
    FilterSplits(countries, IsPriority, NotPriority);
    var r := PriorityPart(countries) + RemainingPart(countries, compare);
    assert |r| == |multiset(r)|;
    r
  }

  /** The option element of one country. */
  function ToOption(c: Country): CountryOption
  {
    CountryOption(c.name, c.name, c.code, c.name == "Germany")
  }

  /** `createCountryOptions(countries)` */
  function CreateCountryOptions(countries: seq<Country>, compare: (string, string) -> int): (r: seq<CountryOption>)
    ensures |r| == |countries|
    ensures forall k :: 0 <= k < |r| ==> r[k] == ToOption(Ordered(countries, compare)[k])
  {
    var ordered := Ordered(countries, compare);
    seq(|ordered|, k requires 0 <= k < |ordered| => ToOption(ordered[k]))
  }

  /** The priority countries make up the front of the order, and only
      they. */
  lemma PriorityFront(countries: seq<Country>, compare: (string, string) -> int, k: nat)
    requires k < |countries|
    ensures IsPriority(Ordered(countries, compare)[k]) <==> k < |PriorityPart(countries)|
  {
    var o := Ordered(countries, compare);
    var p := PriorityPart(countries);
    if k < |p| {
      assert o[k] == p[k];
    } else {
      assert o[k] == RemainingPart(countries, compare)[k - |p|];
    }
  }

  /** Every priority country stands before every other country. */
  lemma PriorityFirst(countries: seq<Country>, compare: (string, string) -> int, i: nat, j: nat)
    requires i < j < |countries|
    requires IsPriority(Ordered(countries, compare)[j])
    ensures IsPriority(Ordered(countries, compare)[i])
  {
    PriorityFront(countries, compare, j);
    PriorityFront(countries, compare, i);
  }

  /** The priority countries stand in the order Germany, Austria,
      Switzerland. */
  lemma PriorityInOrder(countries: seq<Country>, compare: (string, string) -> int, i: nat, j: nat)
    requires i < j < |countries|
    requires IsPriority(Ordered(countries, compare)[j])
    ensures Rank(Ordered(countries, compare)[i].name) <= Rank(Ordered(countries, compare)[j].name)
  {
    var p := PriorityPart(countries);
    var o := Ordered(countries, compare);
    PriorityFront(countries, compare, j);
    assert o[i] == p[i] && o[j] == p[j];
    SortBySorted(Filter(countries, IsPriority), ByRank());
    SortedPairs(p, ByRank(), i, j);
  }

  /** After the priority countries the others follow in name order, when
      the comparison can order any two names. */
  lemma RemainingSorted(countries: seq<Country>, compare: (string, string) -> int, k: nat)
    requires forall a: string, b: string :: compare(a, b) <= 0 || compare(b, a) <= 0
    requires |PriorityPart(countries)| < k < |countries|
    ensures compare(Ordered(countries, compare)[k - 1].name, Ordered(countries, compare)[k].name) <= 0
  {
    var p := PriorityPart(countries);
    var rest := RemainingPart(countries, compare);
    var o := Ordered(countries, compare);
    assert Total(ByName(compare)) by {
      forall a: Country, b: Country
        ensures ByName(compare)(a, b) || ByName(compare)(b, a)
      {
        assert compare(a.name, b.name) <= 0 || compare(b.name, a.name) <= 0;
      }
    }
    SortBySorted(Filter(countries, NotPriority), ByName(compare));
    assert o[k - 1] == rest[k - 1 - |p|] && o[k] == rest[k - |p|];
  }

  /** Each option shows its country's name as value and text, carries its
      code, and only Germany is selected. */
  lemma OptionFields(countries: seq<Country>, compare: (string, string) -> int, k: nat)
    requires k < |countries|
    ensures var o := CreateCountryOptions(countries, compare)[k]; var c := Ordered(countries, compare)[k];
      o.value == c.name && o.text == c.name && o.code == c.code && (o.selected <==> c.name == "Germany")
  {
  }

  /** Germany, when listed, is the first option, and it is selected. */
  lemma GermanyFirstAndSelected(countries: seq<Country>, compare: (string, string) -> int, germany: Country)
    requires germany in countries && germany.name == "Germany"
    ensures |countries| > 0
    ensures CreateCountryOptions(countries, compare)[0].value == "Germany"
    ensures CreateCountryOptions(countries, compare)[0].selected
  {
    var prio := Filter(countries, IsPriority);
    var p := PriorityPart(countries);
    assert germany in prio;
    assert germany in multiset(p);
    var g :| 0 <= g < |p| && p[g] == germany;
    SortBySorted(prio, ByRank());
    if g > 0 {
      SortedPairs(p, ByRank(), 0, g);
    }
    assert Rank(p[0].name) == 0;
    assert Ordered(countries, compare)[0] == p[0];
  }
}
