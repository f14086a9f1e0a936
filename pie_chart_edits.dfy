/**
 * The data behind the info display's top-five pie chart: a list of (name, value)
 * slices, and the definitions of every edit the display makes to that list when
 * the top five study spots change. The class in module Ui performs these edits
 * in place; each of its methods is proved to produce the list defined here.
 */
module PieChartEdits {

  /** Java's Integer.MAX_VALUE: studied hours and their totals are Java ints. */
  const INT_MAX: int := 0x7fff_ffff

  /** One slice of the chart (a PieChart.Data): the spot's name and its pie value. */
  datatype Data = Data(name: string, value: int)

  /**
   * What the display can ask of a study spot: its name (getName().fullName), its
   * studied hours (getStudiedHours().getHours()) and StudySpot.equals, which the
   * display uses through List.contains. Equality of spots is kept apart from
   * equality of names: the chart is searched by name, the top-five lists by `same`.
   */
  datatype SpotView<!S> = SpotView(name: S -> string, hours: S -> nat, same: (S, S) -> bool)

  /** The slice a spot is drawn as: `new PieChart.Data(name, hours)`. */
  function Entry<S>(v: SpotView<S>, s: S): Data {
    Data(v.name(s), v.hours(s))
  }

  /** One slice per spot, in the order of the spots. */
  function Entries<S>(v: SpotView<S>, spots: seq<S>): (r: seq<Data>)
    ensures |r| == |spots|
    ensures forall i | 0 <= i < |spots| :: r[i] == Entry(v, spots[i])
  {
    seq(|spots|, i requires 0 <= i < |spots| => Entry(v, spots[i]))
  }

  // ---------------------------------------------------------------------------
  // Spots, containment and totals

  /** `list.contains(s)`: `s` equals some element of `list` under StudySpot.equals. */
  function Contains<S>(v: SpotView<S>, list: seq<S>, s: S): (b: bool)
    ensures b ==> list != []
    ensures list != [] && v.same(s, list[0]) ==> b
  {
    exists i | 0 <= i < |list| :: v.same(s, list[i])
  }

  /** Every spot of `list` is contained in `top`. */
  function AllContained<S>(v: SpotView<S>, list: seq<S>, top: seq<S>): (b: bool)
    ensures list == [] ==> b
    ensures b && top == [] ==> list == []
  {
    assert top == [] && list != [] ==> !Contains(v, top, list[0]);
    forall i | 0 <= i < |list| :: Contains(v, top, list[i])
  }

  /** No two spots of `list` are equal under StudySpot.equals. */
  predicate Distinct<S>(v: SpotView<S>, list: seq<S>) {
    forall i, j | 0 <= i < j < |list| :: !v.same(list[i], list[j])
  }

  /** No two spots of `list` have the same name. */
  predicate DistinctNames<S>(v: SpotView<S>, list: seq<S>) {
    forall i, j | 0 <= i < j < |list| :: v.name(list[i]) != v.name(list[j])
  }

  /** StudySpot.equals is symmetric, as Java's equals contract demands. */
  ghost predicate Symmetric<S(!new)>(v: SpotView<S>) {
    forall x, y :: v.same(x, y) ==> v.same(y, x)
  }

  /** StudySpot.equals is transitive, as Java's equals contract demands. */
  ghost predicate Transitive<S(!new)>(v: SpotView<S>) {
    forall x, y, z :: v.same(x, y) && v.same(y, z) ==> v.same(x, z)
  }

  /** The number of spots of `list` that `top` does not contain: the newcomers. */
  function CountNew<S>(v: SpotView<S>, top: seq<S>, list: seq<S>): nat {
    if list == [] then 0
    else CountNew(v, top, list[..|list| - 1]) + (if Contains(v, top, list[|list| - 1]) then 0 else 1)
  }

  /** A prefix has no more newcomers than the whole list. */
  lemma {:induction false} CountNewPrefix<S>(v: SpotView<S>, top: seq<S>, list: seq<S>, i: nat)
    requires i <= |list|
    ensures CountNew(v, top, list[..i]) <= CountNew(v, top, list)
    decreases |list|
  {
    if i < |list| {
      assert list[..|list| - 1][..i] == list[..i];
      CountNewPrefix(v, top, list[..|list| - 1], i);
    } else {
      assert list[..i] == list;
    }
  }

  /** The sum of the studied hours of `list`. */
  function Total<S>(v: SpotView<S>, list: seq<S>): (r: int)
    ensures r >= 0
  {
    if list == [] then 0 else Total(v, list[..|list| - 1]) + v.hours(list[|list| - 1])
  }

  /** The total is zero exactly when no spot has studied hours. */
  lemma {:induction false} TotalIsZero<S>(v: SpotView<S>, list: seq<S>)
    ensures Total(v, list) == 0 <==> forall i | 0 <= i < |list| :: v.hours(list[i]) == 0
  {
    if list != [] {
      var init := list[..|list| - 1];
      TotalIsZero(v, init);
      assert forall i | 0 <= i < |init| :: init[i] == list[i];
    }
  }

  /** A running sum over a prefix never exceeds the total, so it never overflows either. */
  lemma {:induction false} TotalPrefix<S>(v: SpotView<S>, list: seq<S>, i: nat)
    requires i <= |list|
    ensures Total(v, list[..i]) <= Total(v, list)
    decreases |list|
  {
    if i < |list| {
      assert list[..|list| - 1][..i] == list[..i];
      TotalPrefix(v, list[..|list| - 1], i);
    } else {
      assert list[..i] == list;
    }
  }

  // ---------------------------------------------------------------------------
  // Ordered insertion (addNewSpotIntoPieChart)

  /** The index of the first slice whose value is strictly less than `value`, or |chart|. */
  function FirstSmaller(chart: seq<Data>, value: int): (k: nat)
    ensures k <= |chart|
    ensures forall i | 0 <= i < k :: chart[i].value >= value
    ensures k < |chart| ==> chart[k].value < value
  {
    if chart == [] then 0
    else if chart[0].value < value then 0
    else 1 + FirstSmaller(chart[1..], value)
  }

  /**
   * The ordered insertion rule: `d` goes immediately before the first slice with a
   * strictly smaller value; with none, it is appended.
   */
  function Insert(chart: seq<Data>, d: Data): (r: seq<Data>)
    ensures |r| == |chart| + 1
  {
    if chart == [] then [d]
    else if chart[0].value < d.value then [d] + chart
    else [chart[0]] + Insert(chart[1..], d)
  }

  /**
   * Where Insert puts the new slice: at the first index whose old slice is strictly
   * smaller; everything before it is untouched, everything from it on moves up by one,
   * so the old slices keep their relative order.
   */
  lemma {:induction false} InsertPlacement(chart: seq<Data>, d: Data)
    ensures var k := FirstSmaller(chart, d.value);
      && Insert(chart, d) == chart[..k] + [d] + chart[k..]
      && Insert(chart, d)[k] == d
      && Insert(chart, d)[..k] + Insert(chart, d)[k + 1..] == chart
  {
    InsertSplit(chart, d);
    var k := FirstSmaller(chart, d.value);
    var r := Insert(chart, d);
    assert r[..k] == chart[..k];
    assert r[k + 1..] == chart[k..];
    assert chart[..k] + chart[k..] == chart;
  }

  /** The splitting half of InsertPlacement, by induction on the chart. */
  lemma {:induction false} InsertSplit(chart: seq<Data>, d: Data)
    ensures var k := FirstSmaller(chart, d.value);
      Insert(chart, d) == chart[..k] + [d] + chart[k..]
  {
    if chart != [] && chart[0].value >= d.value {
      var tail := chart[1..];
      var k' := FirstSmaller(tail, d.value);
      InsertSplit(tail, d);
      calc {
        Insert(chart, d);
        [chart[0]] + Insert(tail, d);
        [chart[0]] + (tail[..k'] + [d] + tail[k'..]);
        ([chart[0]] + tail[..k']) + [d] + tail[k'..];
        { assert [chart[0]] + tail[..k'] == chart[..k' + 1]; assert tail[k'..] == chart[k' + 1..]; }
        chart[..k' + 1] + [d] + chart[k' + 1..];
      }
    }
  }

  /** Dropping the last slice of a sorted chart leaves it sorted, and every slice kept is at least as large. */
  lemma SortedInit(chart: seq<Data>, init: seq<Data>, d: Data)
    requires SortedDesc(chart) && chart == init + [d]
    ensures SortedDesc(init)
    ensures forall i | 0 <= i < |init| :: init[i].value >= d.value
  {
    forall i | 0 <= i < |init| ensures init[i] == chart[i] && init[i].value >= d.value {
      assert chart[|init|] == d;
    }
  }

  /** A slice no larger than every slice of the chart is appended. */
  lemma InsertAtEnd(chart: seq<Data>, d: Data)
    requires forall i | 0 <= i < |chart| :: chart[i].value >= d.value
    ensures Insert(chart, d) == chart + [d]
  {
    InsertSplit(chart, d);
    var k := FirstSmaller(chart, d.value);
    assert k == |chart|;
    assert chart[..k] == chart && chart[k..] == [];
  }

  /** Insert adds exactly the new slice: the old slices and `d`, nothing else. */
  lemma InsertMultiset(chart: seq<Data>, d: Data)
    ensures multiset(Insert(chart, d)) == multiset(chart) + multiset{d}
  {
    var k := FirstSmaller(chart, d.value);
    InsertSplit(chart, d);
    assert chart == chart[..k] + chart[k..];
    assert multiset(chart[..k] + [d] + chart[k..]) == multiset(chart[..k]) + multiset{d} + multiset(chart[k..]);
  }

  /** The chart is sorted by value, largest first. */
  predicate SortedDesc(chart: seq<Data>) {
    forall i, j | 0 <= i < j < |chart| :: chart[i].value >= chart[j].value
  }

  /**
   * Inserting into a chart sorted largest-first keeps it sorted, and every slice whose
   * value equals the new one stays ahead of it.
   */
  lemma InsertKeepsSorted(chart: seq<Data>, d: Data)
    requires SortedDesc(chart)
    ensures SortedDesc(Insert(chart, d))
    ensures forall i | 0 <= i < |chart| && chart[i].value == d.value :: i < FirstSmaller(chart, d.value)
  {
    var k := FirstSmaller(chart, d.value);
    InsertSplit(chart, d);
    var r := Insert(chart, d);
    assert forall i | 0 <= i < k :: r[i] == chart[i];
    assert r[k] == d;
    assert forall i | k < i < |r| :: r[i] == chart[i - 1];
    forall i, j | 0 <= i < j < |r| ensures r[i].value >= r[j].value {
      if j < k {
      } else if j == k {
      } else if i < k {
        assert r[j] == chart[j - 1];
      } else if i == k {
        assert chart[k].value >= chart[j - 1].value;
      } else {
        assert r[i] == chart[i - 1] && r[j] == chart[j - 1];
      }
    }
  }

  // ---------------------------------------------------------------------------
  // Lookup by name (setPieValue on the first slice named after a spot, remove)

  /** The index of the first slice with name `n`, or |chart| when there is none. */
  function NameIndex(chart: seq<Data>, n: string): (k: nat)
    ensures k <= |chart|
    ensures forall i | 0 <= i < k :: chart[i].name != n
    ensures k < |chart| ==> chart[k].name == n
  {
    if chart == [] then 0
    else if chart[0].name == n then 0
    else 1 + NameIndex(chart[1..], n)
  }

  /** Charts with the same names, slice by slice, find every name at the same index. */
  lemma NameIndexOfSameNames(c1: seq<Data>, c2: seq<Data>, n: string)
    requires |c1| == |c2|
    requires forall i | 0 <= i < |c1| :: c1[i].name == c2[i].name
    ensures NameIndex(c1, n) == NameIndex(c2, n)
  {
    var k1, k2 := NameIndex(c1, n), NameIndex(c2, n);
    assert k1 < |c1| ==> c2[k1].name == c1[k1].name;
    assert k2 < |c2| ==> c1[k2].name == c2[k2].name;
  }

  /**
   * `d.setPieValue(value)` on the first slice named `n`: that slice takes the new
   * value, every other slice and every name stay as they were; with no slice named
   * `n` the chart is unchanged.
   */
  function SetValue(chart: seq<Data>, n: string, value: int): (r: seq<Data>)
    ensures |r| == |chart|
    ensures forall i | 0 <= i < |chart| :: r[i].name == chart[i].name
    ensures forall i | 0 <= i < |chart| && i != NameIndex(chart, n) :: r[i] == chart[i]
    ensures NameIndex(chart, n) < |chart| ==> r[NameIndex(chart, n)].value == value
  {
    var k := NameIndex(chart, n);
    if k < |chart| then chart[k := Data(n, value)] else chart
  }

  /**
   * `pieChartData.remove(d)` for the first slice `d` named `n`: exactly that slice
   * goes, the others close up in order; with no slice named `n` nothing changes.
   */
  function RemoveNamed(chart: seq<Data>, n: string): (r: seq<Data>)
    ensures NameIndex(chart, n) == |chart| ==> r == chart
    ensures NameIndex(chart, n) < |chart| ==>
      && |r| == |chart| - 1
      && multiset(r) + multiset{chart[NameIndex(chart, n)]} == multiset(chart)
      && forall i | 0 <= i < |r| :: r[i] == chart[if i < NameIndex(chart, n) then i else i + 1]
  {
    var k := NameIndex(chart, n);
    if k < |chart| then
      RemoveAtFacts(chart, k);
      chart[..k] + chart[k + 1..]
    else chart
  }

  /** Cutting out position `k` loses exactly that slice and closes up the rest in order. */
  lemma RemoveAtFacts(chart: seq<Data>, k: nat)
    requires k < |chart|
    ensures var r := chart[..k] + chart[k + 1..];
      && |r| == |chart| - 1
      && multiset(r) + multiset{chart[k]} == multiset(chart)
      && forall i | 0 <= i < |r| :: r[i] == chart[if i < k then i else i + 1]
  {
    assert chart == chart[..k] + [chart[k]] + chart[k + 1..];
  }

  // ---------------------------------------------------------------------------
  // The three reconciliation steps, each a fold over the new top five

  /**
   * handleAddingSpotIntoTopFive: every spot of `spots` that `top` does not contain is
   * inserted by the ordered rule, in the order of `spots`; the others are skipped.
   */
  function AddNewcomers<S>(v: SpotView<S>, chart: seq<Data>, top: seq<S>, spots: seq<S>): (r: seq<Data>)
    ensures |r| == |chart| + CountNew(v, top, spots)
  {
    if spots == [] then chart
    else
      var prev := AddNewcomers(v, chart, top, spots[..|spots| - 1]);
      var s := spots[|spots| - 1];
      if Contains(v, top, s) then prev else Insert(prev, Entry(v, s))
  }

  /**
   * handleSameSpots: for each spot in turn, the first slice named after it takes the
   * spot's hours. No slice is added or removed and no name changes.
   */
  function UpdateValues<S>(v: SpotView<S>, chart: seq<Data>, spots: seq<S>): (r: seq<Data>)
    ensures |r| == |chart|
    ensures forall i | 0 <= i < |chart| :: r[i].name == chart[i].name
  {
    if spots == [] then chart
    else
      var s := spots[|spots| - 1];
      SetValue(UpdateValues(v, chart, spots[..|spots| - 1]), v.name(s), v.hours(s))
  }

  /**
   * The effect of handleSameSpots when the spots have distinct names: the first
   * slice named after each spot shows that spot's hours.
   */
  lemma {:induction false} UpdateValuesEffect<S>(v: SpotView<S>, chart: seq<Data>, spots: seq<S>)
    requires DistinctNames(v, spots)
    ensures var r := UpdateValues(v, chart, spots);
      forall i | 0 <= i < |spots| && NameIndex(chart, v.name(spots[i])) < |chart| ::
        r[NameIndex(chart, v.name(spots[i]))].value == v.hours(spots[i])
  {
    if spots != [] {
      var init := spots[..|spots| - 1];
      var s := spots[|spots| - 1];
      assert forall i | 0 <= i < |init| :: init[i] == spots[i];
      UpdateValuesEffect(v, chart, init);
      var prev := UpdateValues(v, chart, init);
      NameIndexOfSameNames(prev, chart, v.name(s));
      forall i | 0 <= i < |init| && NameIndex(chart, v.name(spots[i])) < |chart|
        ensures UpdateValues(v, chart, spots)[NameIndex(chart, v.name(spots[i]))].value == v.hours(spots[i])
      {
        assert v.name(spots[i]) != v.name(s);
      }
    }
  }

  /** handleSameSpots leaves a slice named after no spot as it was. */
  lemma {:induction false} UpdateValuesKeepsOthers<S>(v: SpotView<S>, chart: seq<Data>, spots: seq<S>, j: nat)
    requires j < |chart|
    requires forall i | 0 <= i < |spots| :: v.name(spots[i]) != chart[j].name
    ensures UpdateValues(v, chart, spots)[j] == chart[j]
  {
    if spots != [] {
      var init := spots[..|spots| - 1];
      var s := spots[|spots| - 1];
      assert forall i | 0 <= i < |init| :: init[i] == spots[i];
      UpdateValuesKeepsOthers(v, chart, init, j);
      var prev := UpdateValues(v, chart, init);
      assert prev[j].name == chart[j].name != v.name(s);
      assert j != NameIndex(prev, v.name(s));
    }
  }

  /**
   * When every slice named after a spot already shows that spot's hours, handleSameSpots
   * changes nothing.
   */
  lemma {:induction false} UpdateValuesNoChange<S>(v: SpotView<S>, chart: seq<Data>, spots: seq<S>)
    requires forall i | 0 <= i < |spots| && NameIndex(chart, v.name(spots[i])) < |chart| ::
      chart[NameIndex(chart, v.name(spots[i]))].value == v.hours(spots[i])
    ensures UpdateValues(v, chart, spots) == chart
  {
    if spots != [] {
      var init := spots[..|spots| - 1];
      assert forall i | 0 <= i < |init| :: init[i] == spots[i];
      UpdateValuesNoChange(v, chart, init);
      var s := spots[|spots| - 1];
      var k := NameIndex(chart, v.name(s));
      if k < |chart| {
        assert chart[k] == Data(v.name(s), v.hours(s));
      }
    }
  }

  /**
   * The second loop of handleOvertakingSpots: a spot that `top` contains updates the
   * value of the first slice named after it, any other spot is inserted by the
   * ordered rule.
   */
  function Refresh<S>(v: SpotView<S>, chart: seq<Data>, top: seq<S>, spots: seq<S>): (r: seq<Data>)
    ensures |r| == |chart| + CountNew(v, top, spots)
  {
    if spots == [] then chart
    else
      var prev := Refresh(v, chart, top, spots[..|spots| - 1]);
      var s := spots[|spots| - 1];
      if Contains(v, top, s) then SetValue(prev, v.name(s), v.hours(s)) else Insert(prev, Entry(v, s))
  }

  /** Some spot of the old top five is not contained in the new top five. */
  function HasVictim<S>(v: SpotView<S>, top: seq<S>, newTop: seq<S>): (b: bool)
    ensures b ==> top != []
    ensures top != [] && newTop == [] ==> b
  {
    assert top != [] && newTop == [] ==> !Contains(v, newTop, top[0]);
    exists i | 0 <= i < |top| :: !Contains(v, newTop, top[i])
  }

  /** The index of the first spot of `top` that `newTop` does not contain, or |top|. */
  function FirstAbsent<S>(v: SpotView<S>, top: seq<S>, newTop: seq<S>): (k: nat)
    ensures k <= |top|
    ensures forall i | 0 <= i < k :: Contains(v, newTop, top[i])
    ensures k < |top| ==> !Contains(v, newTop, top[k])
    ensures k < |top| <==> HasVictim(v, top, newTop)
    ensures newTop == [] ==> k == 0
  {
    if top == [] then 0
    else if !Contains(v, newTop, top[0]) then 0
    else
      var k := 1 + FirstAbsent(v, top[1..], newTop);
      assert forall i | 1 <= i < |top| :: top[i] == top[1..][i - 1];
      k
  }

  /** The name of the spot handleOvertakingSpots removes (spotToBeRemoved). */
  function VictimName<S>(v: SpotView<S>, top: seq<S>, newTop: seq<S>): (r: string)
    requires HasVictim(v, top, newTop)
    ensures exists i | 0 <= i < |top| :: r == v.name(top[i]) && !Contains(v, newTop, top[i])
  {
    v.name(top[FirstAbsent(v, top, newTop)])
  }

  /**
   * handleOvertakingSpots: remove the first slice named after the first old spot that
   * the new top five lacks, then refresh the chart from the new top five.
   */
  function Overtake<S>(v: SpotView<S>, chart: seq<Data>, top: seq<S>, newTop: seq<S>): (r: seq<Data>)
    requires HasVictim(v, top, newTop)
    ensures NameIndex(chart, VictimName(v, top, newTop)) < |chart| ==>
      |r| == |chart| - 1 + CountNew(v, top, newTop)
    ensures NameIndex(chart, VictimName(v, top, newTop)) == |chart| ==>
      |r| == |chart| + CountNew(v, top, newTop)
  {
    Refresh(v, RemoveNamed(chart, VictimName(v, top, newTop)), top, newTop)
  }

  /**
   * A list `a` of pairwise unequal spots, all contained in `b`, is shorter than `b`
   * when `b` has a member that `a` does not contain (pigeonhole).
   */
  lemma {:induction false} CoveredListIsShorter<S(!new)>(v: SpotView<S>, a: seq<S>, b: seq<S>, k: nat)
    requires Symmetric(v) && Transitive(v)
    requires Distinct(v, a)
    requires AllContained(v, a, b)
    requires k < |b| && !Contains(v, a, b[k])
    ensures |a| < |b|
    decreases |a|
  {
    if |a| > 0 {
      var last := a[|a| - 1];
      assert Contains(v, b, last);
      var j :| 0 <= j < |b| && v.same(last, b[j]);
      assert v.same(b[j], last);
      assert Contains(v, a, b[j]);
      var b' := b[..j] + b[j + 1..];
      var k' := if k < j then k else k - 1;
      assert b'[k'] == b[k];
      var a' := a[..|a| - 1];
      forall i | 0 <= i < |a'| ensures Contains(v, b', a'[i]) {
        assert a'[i] == a[i];
        assert !v.same(a[i], last);
        assert !v.same(a'[i], b[j]);
        var m :| 0 <= m < |b| && v.same(a'[i], b[m]);
        var m' := if m < j then m else m - 1;
        assert b'[m'] == b[m];
      }
      CoveredListIsShorter(v, a', b', k');
    }
  }

  /**
   * The assertion at the removal step of handleOvertakingSpots always holds: when the
   * new top five is no longer than the old, and has a spot the old one lacks, some old
   * spot is missing from the new list, provided StudySpot.equals is symmetric and
   * transitive and the old top five has no duplicates.
   */
  lemma VictimExists<S(!new)>(v: SpotView<S>, top: seq<S>, newTop: seq<S>)
    requires Symmetric(v) && Transitive(v) && Distinct(v, top)
    requires |newTop| <= |top| && !AllContained(v, newTop, top)
    ensures HasVictim(v, top, newTop)
  {
    var k :| 0 <= k < |newTop| && !Contains(v, top, newTop[k]);
    if AllContained(v, top, newTop) {
      CoveredListIsShorter(v, top, newTop, k);
      assert false;
    }
  }

  // ---------------------------------------------------------------------------
  // A whole reconciliation (updatePieChart, before its final sort)

  /** The chart is cleared when the new top five and the full list are both empty. */
  function Cleared<S>(chart: seq<Data>, newTop: seq<S>, fullEmpty: bool): (r: seq<Data>)
    ensures r == [] || r == chart
    ensures newTop != [] || !fullEmpty ==> r == chart
    ensures newTop == [] && fullEmpty ==> r == []
  {
    if |newTop| == 0 && fullEmpty && |chart| != 0 then [] else chart
  }

  /** The condition under which updatePieChart calls handleOvertakingSpots. */
  function Overtaking<S>(v: SpotView<S>, top: seq<S>, newTop: seq<S>): (b: bool)
    ensures b ==> newTop != [] && top != []
  {
    !AllContained(v, newTop, top) && |newTop| <= |top|
  }

  /**
   * Every assertion inside updatePieChart holds: each ordered insertion happens on a
   * chart of fewer than five slices, and handleOvertakingSpots finds a spot to remove.
   */
  function Reconcilable<S>(v: SpotView<S>, chart: seq<Data>, top: seq<S>, newTop: seq<S>, fullEmpty: bool): (b: bool)
    ensures AllContained(v, newTop, top) && |newTop| <= |top| ==> b
  {
    var c0 := Cleared(chart, newTop, fullEmpty);
    && (|newTop| > |top| ==> |c0| + CountNew(v, top, newTop) <= 5)
    && (Overtaking(v, top, newTop) ==>
          && HasVictim(v, top, newTop)
          && |RemoveNamed(c0, VictimName(v, top, newTop))| + CountNew(v, top, newTop) <= 5)
  }

  /** The chart after the edit steps of updatePieChart, in the order the method runs them. */
  function Reconciled<S>(v: SpotView<S>, chart: seq<Data>, top: seq<S>, newTop: seq<S>, fullEmpty: bool): (r: seq<Data>)
    requires Reconcilable(v, chart, top, newTop, fullEmpty)
    ensures newTop == [] && fullEmpty ==> r == []
  {
    var c0 := Cleared(chart, newTop, fullEmpty);
    var c1 := if |newTop| > |top| then AddNewcomers(v, c0, top, newTop) else c0;
    var c2 := if AllContained(v, newTop, top) then UpdateValues(v, c1, newTop) else c1;
    if Overtaking(v, top, newTop) then Overtake(v, c2, top, newTop) else c2
  }

  /** A reconciled chart never holds more than five slices. */
  lemma ReconciledSize<S>(v: SpotView<S>, chart: seq<Data>, top: seq<S>, newTop: seq<S>, fullEmpty: bool)
    requires |chart| <= 5
    requires Reconcilable(v, chart, top, newTop, fullEmpty)
    ensures |Reconciled(v, chart, top, newTop, fullEmpty)| <= 5
  {
  }

  /**
   * When every spot of the new top five was already in the old one and the list did
   * not grow, updatePieChart only updates values: no slice is added or removed, so a
   * spot that left the top five keeps its slice.
   */
  lemma ContainedTopKeepsEverySlice<S>(v: SpotView<S>, chart: seq<Data>, top: seq<S>, newTop: seq<S>, fullEmpty: bool)
    requires AllContained(v, newTop, top) && |newTop| <= |top|
    requires Reconcilable(v, chart, top, newTop, fullEmpty)
    ensures var c0 := Cleared(chart, newTop, fullEmpty);
      var r := Reconciled(v, chart, top, newTop, fullEmpty);
      && |r| == |c0|
      && forall i | 0 <= i < |c0| :: r[i].name == c0[i].name
  {
  }

  /**
   * Reconciling a top five against itself edits nothing, when StudySpot.equals is
   * reflexive, the spots have distinct names and the chart shows exactly those spots.
   */
  lemma ReconcileSameIsNoOp<S>(v: SpotView<S>, top: seq<S>, fullEmpty: bool)
    requires forall i | 0 <= i < |top| :: v.same(top[i], top[i])
    requires DistinctNames(v, top)
    ensures Reconcilable(v, Entries(v, top), top, top, fullEmpty)
    ensures Reconciled(v, Entries(v, top), top, top, fullEmpty) == Entries(v, top)
  {
    var chart := Entries(v, top);
    assert Cleared(chart, top, fullEmpty) == chart;
    forall i | 0 <= i < |top| ensures Contains(v, top, top[i]) {
      assert v.same(top[i], top[i]);
    }
    assert AllContained(v, top, top);
    assert !Overtaking(v, top, top);
    forall i | 0 <= i < |top|
      ensures chart[NameIndex(chart, v.name(top[i]))].value == v.hours(top[i])
    {
      EntriesNameIndex(v, top, i);
    }
    UpdateValuesNoChange(v, chart, top);
  }

  /** In the chart of spots with distinct names, each spot's name is first found at its own slice. */
  lemma EntriesNameIndex<S>(v: SpotView<S>, top: seq<S>, i: nat)
    requires DistinctNames(v, top) && i < |top|
    ensures NameIndex(Entries(v, top), v.name(top[i])) == i
  {
    var chart := Entries(v, top);
    assert chart[i].name == v.name(top[i]);
    forall j | 0 <= j < i ensures chart[j].name != v.name(top[i]) {
      assert chart[j].name == v.name(top[j]);
    }
  }

  // ---------------------------------------------------------------------------
  // The final sort (pieChartData.sort by value, largest first)

  /**
   * List.sort with the comparator `(int) (d2.getPieValue() - d1.getPieValue())`.
   * The sort is stable, so it is insertion of each slice in turn by the ordered
   * rule: a slice goes after every earlier slice of equal value.
   */
  function SortDesc(chart: seq<Data>): (r: seq<Data>)
    ensures |r| == |chart|
    ensures multiset(r) == multiset(chart)
  {
    if chart == [] then []
    else
      assert chart == chart[..|chart| - 1] + [chart[|chart| - 1]];
      InsertMultiset(SortDesc(chart[..|chart| - 1]), chart[|chart| - 1]);
      Insert(SortDesc(chart[..|chart| - 1]), chart[|chart| - 1])
  }

  /** The sort result is ordered by value, largest first. */
  lemma {:induction false} SortDescSorted(chart: seq<Data>)
    ensures SortedDesc(SortDesc(chart))
  {
    if chart != [] {
      SortDescSorted(chart[..|chart| - 1]);
      InsertKeepsSorted(SortDesc(chart[..|chart| - 1]), chart[|chart| - 1]);
    }
  }

  /** The slices of value `x`, in chart order. */
  function Ties(chart: seq<Data>, x: int): (r: seq<Data>)
    ensures |r| <= |chart|
    ensures forall i | 0 <= i < |r| :: r[i].value == x
  {
    if chart == [] then []
    else (if chart[0].value == x then [chart[0]] else []) + Ties(chart[1..], x)
  }

  /** The slices of one value in a concatenation are those of each part, in turn. */
  lemma {:induction false} TiesOfConcat(a: seq<Data>, b: seq<Data>, x: int)
    ensures Ties(a + b, x) == Ties(a, x) + Ties(b, x)
    decreases |a|
  {
    if a == [] {
      assert a + b == b;
    } else {
      assert (a + b)[1..] == a[1..] + b;
      TiesOfConcat(a[1..], b, x);
    }
  }

  /** A single slice is its own tie list exactly when it has the value. */
  lemma TiesOfOne(d: Data, x: int)
    ensures Ties([d], x) == if d.value == x then [d] else []
  {
    assert [d][1..] == [];
  }

  /** A chart with no slice of value `x` has no ties at `x`. */
  lemma {:induction false} NoTies(chart: seq<Data>, x: int)
    requires forall i | 0 <= i < |chart| :: chart[i].value != x
    ensures Ties(chart, x) == []
    decreases |chart|
  {
    if chart != [] {
      assert forall i | 0 <= i < |chart| - 1 :: chart[1..][i] == chart[i + 1];
      NoTies(chart[1..], x);
    }
  }

  /** The slices of one value in three consecutive parts are those of each part, in turn. */
  lemma {:induction false} TiesOfThree(a: seq<Data>, b: seq<Data>, c: seq<Data>, x: int)
    ensures Ties(a + b + c, x) == Ties(a, x) + Ties(b, x) + Ties(c, x)
  {
    TiesOfConcat(a + b, c, x);
    TiesOfConcat(a, b, x);
  }

  /** In a sorted chart, nothing from the insertion index on has the inserted value. */
  lemma {:induction false} TiesAfterInsertion(chart: seq<Data>, x: int)
    requires SortedDesc(chart)
    ensures Ties(chart[FirstSmaller(chart, x)..], x) == []
  {
    var k := FirstSmaller(chart, x);
    var b := chart[k..];
    forall i | 0 <= i < |b| ensures b[i].value != x {
      assert b[i] == chart[k + i];
      assert chart[k].value >= chart[k + i].value;
    }
    NoTies(b, x);
  }

  /** Inserting into a sorted chart puts the new slice after every slice of its own value. */
  lemma {:induction false} TiesOfInsert(chart: seq<Data>, d: Data, x: int)
    requires SortedDesc(chart)
    ensures Ties(Insert(chart, d), x) == Ties(chart, x) + (if d.value == x then [d] else [])
  {
    var k := FirstSmaller(chart, d.value);
    var a, b := chart[..k], chart[k..];
    InsertSplit(chart, d);
    TiesOfThree(a, [d], b, x);
    assert chart == a + b;
    TiesOfConcat(a, b, x);
    TiesOfOne(d, x);
    var ta, tb, td := Ties(a, x), Ties(b, x), Ties([d], x);
    assert Ties(Insert(chart, d), x) == ta + td + tb;
    assert Ties(chart, x) == ta + tb;
    if d.value == x {
      TiesAfterInsertion(chart, x);
      assert tb == [] && td == [d];
      assert ta + td + tb == (ta + tb) + [d];
    } else {
      assert td == [];
      assert ta + td + tb == (ta + tb) + [];
    }
  }

  /**
   * The sort is stable: for every value, the slices of that value come out of the
   * sort in the order they went in.
   */
  lemma {:induction false} SortDescIsStable(chart: seq<Data>, x: int)
    ensures Ties(SortDesc(chart), x) == Ties(chart, x)
  {
    if chart != [] {
      var init := chart[..|chart| - 1];
      var d := chart[|chart| - 1];
      SortDescIsStable(init, x);
      SortDescSorted(init);
      TiesOfInsert(SortDesc(init), d, x);
      assert chart == init + [d];
      TiesOfConcat(init, [d], x);
      TiesOfOne(d, x);
    }
  }

  /** Sorting a chart that is already ordered changes nothing. */
  lemma {:induction false} SortDescOfSorted(chart: seq<Data>)
    requires SortedDesc(chart)
    ensures SortDesc(chart) == chart
  {
    if chart != [] {
      var init := chart[..|chart| - 1];
      var d := chart[|chart| - 1];
      assert chart == init + [d];
      SortedInit(chart, init, d);
      SortDescOfSorted(init);
      InsertAtEnd(init, d);
    }
  }

  // ---------------------------------------------------------------------------
  // A stale slice, and the chart the display evidently means to show

  /**
   * As written, a stale slice blocks a later insertion. When a top five of five spots
   * loses one spot, every new spot is still contained in the old list, so only values
   * are updated and all five slices stay. When the next top five brings a newcomer,
   * the chart would need a sixth slice: the assertion of addNewSpotIntoPieChart fails.
   */
  lemma StaleSliceOverflows<S>(v: SpotView<S>, top: seq<S>, newTop: seq<S>, next: seq<S>, fullEmpty: bool)
    requires |top| == 5 && |newTop| == 4 && AllContained(v, newTop, top)
    requires |next| == 5 && CountNew(v, newTop, next) >= 1
    ensures Reconcilable(v, Entries(v, top), top, newTop, false)
    ensures |Reconciled(v, Entries(v, top), top, newTop, false)| == 5
    ensures |ShowTopFive(v, newTop)| == 4
    ensures !Reconcilable(v, Reconciled(v, Entries(v, top), top, newTop, false), newTop, next, fullEmpty)
  {
    var chart := Entries(v, top);
    assert Cleared(chart, newTop, false) == chart;
    assert !Overtaking(v, top, newTop);
    var c := Reconciled(v, chart, top, newTop, false);
    assert |c| == 5;
    assert Cleared(c, next, fullEmpty) == c;
  }

  /**
   * One such sequence: the spots are integers compared by value; 4 leaves the top five
   * [0, 1, 2, 3, 4], and then 5 joins.
   */
  lemma StaleSliceExample(v: SpotView<int>, fullEmpty: bool)
    requires forall a, b :: v.same(a, b) <==> a == b
    ensures var top, newTop, next := [0, 1, 2, 3, 4], [0, 1, 2, 3], [0, 1, 2, 3, 5];
      && Reconcilable(v, Entries(v, top), top, newTop, false)
      && !Reconcilable(v, Reconciled(v, Entries(v, top), top, newTop, false), newTop, next, fullEmpty)
  {
    var top, newTop, next := [0, 1, 2, 3, 4], [0, 1, 2, 3], [0, 1, 2, 3, 5];
    forall i | 0 <= i < |newTop| ensures Contains(v, top, newTop[i]) {
      assert v.same(newTop[i], top[i]);
    }
    assert !Contains(v, newTop, next[4]);
    assert CountNew(v, newTop, next) >= 1;
    StaleSliceOverflows(v, top, newTop, next, fullEmpty);
  }

  /** The chart the display evidently means to show: one slice per spot of the top five, largest first. */
  function ShowTopFive<S>(v: SpotView<S>, newTop: seq<S>): (r: seq<Data>)
    ensures |r| == |newTop|
    ensures forall i | 0 <= i < |newTop| :: Entry(v, newTop[i]) in r
  {
    assert forall i | 0 <= i < |newTop| :: Entry(v, newTop[i]) in multiset(Entries(v, newTop));
    SortDesc(Entries(v, newTop))
  }

  /**
   * The intended chart has exactly one slice per spot of the new top five, ordered largest
   * first, so it never holds more than five slices and a later newcomer always fits.
   */
  lemma ShowTopFiveFits<S>(v: SpotView<S>, newTop: seq<S>)
    ensures |ShowTopFive(v, newTop)| == |newTop|
    ensures multiset(ShowTopFive(v, newTop)) == multiset(Entries(v, newTop))
    ensures SortedDesc(ShowTopFive(v, newTop))
  {
    SortDescSorted(Entries(v, newTop));
  }

  /**
   * When the new top five is the old list unchanged, the code as written shows the
   * intended chart. A reordered or re-valued top five of the same spots can differ in
   * the order of tied slices, which the code keeps in the old slice order.
   */
  lemma SameTopShowsTopFive<S>(v: SpotView<S>, top: seq<S>, fullEmpty: bool)
    requires forall i | 0 <= i < |top| :: v.same(top[i], top[i])
    requires DistinctNames(v, top)
    ensures Reconcilable(v, Entries(v, top), top, top, fullEmpty)
    ensures SortDesc(Reconciled(v, Entries(v, top), top, top, fullEmpty)) == ShowTopFive(v, top)
  {
    ReconcileSameIsNoOp(v, top, fullEmpty);
  }
}
