/**
 * The info panel's pie chart of the top five study spots, without its JavaFX
 * rendering: the list of slices it edits in place, the top five it remembers, the
 * default-message text and the total-hours figure it shows.
 */
module Ui {
  import opened PieChartEdits

  /** Shown instead of the chart while no hours have been logged. */
  const DEFAULT_MESSAGE: string := "Use the log command to start tracking hours!"

  class InfoDisplay<S(!new)> {
    /** How spots are named, weighed and compared. */
    const view: SpotView<S>
    /** The top five the chart was last synchronised with. */
    var topFiveSpots: seq<S>
    /** The slices of the chart, in display order. */
    var pieChartData: seq<Data>
    /** The text of the default-message label. */
    var defaultMessage: string
    /** The total the hours label shows (its text is String.valueOf of this number). */
    var totalShown: int

    /** At most five spots are remembered and at most five slices drawn. */
    ghost predicate Valid()
      reads this
    {
      |topFiveSpots| <= 5 && |pieChartData| <= 5
    }

    /** Builds one slice per top-five spot, in order, and shows the total of the full list. */
    constructor (view: SpotView<S>, topFiveSpots: seq<S>, fullList: seq<S>)
      requires |topFiveSpots| <= 5
      requires Total(view, fullList) <= INT_MAX
      ensures Valid()
      ensures this.view == view && this.topFiveSpots == topFiveSpots
      ensures pieChartData == Entries(view, topFiveSpots)
      ensures defaultMessage == (if Total(view, fullList) == 0 then DEFAULT_MESSAGE else "")
      ensures totalShown == Total(view, fullList)
    {
      this.view := view;
      this.topFiveSpots := topFiveSpots;
      pieChartData := [];
      defaultMessage := "";
      totalShown := 0;
      new;
      var total := GetTotalStudiedHours(fullList);
      if total == 0 {
        defaultMessage := DEFAULT_MESSAGE;
      }
      var pieData: seq<Data> := [];
      var i := 0;
      while i < |topFiveSpots|
        invariant 0 <= i <= |topFiveSpots|
        invariant pieData == Entries(view, topFiveSpots[..i])
      {
        var s := topFiveSpots[i];
        pieData := pieData + [Data(view.name(s), view.hours(s))];
        i := i + 1;
      }
      assert topFiveSpots[..i] == topFiveSpots;
      total := GetTotalStudiedHours(fullList);
      totalShown := total;
      pieChartData := pieData;
    }

    /**
     * Synchronises the chart with a new top five: edits the slices, remembers the new
     * top five, sorts the slices largest first and shows the total of the full list.
     */
    method UpdatePieChart(newTopFiveSpots: seq<S>, fullList: seq<S>)
      requires Valid()
      requires |newTopFiveSpots| <= 5
      requires Total(view, fullList) <= INT_MAX
      requires Reconcilable(view, pieChartData, topFiveSpots, newTopFiveSpots, |fullList| == 0)
      modifies this
      ensures Valid()
      ensures topFiveSpots == newTopFiveSpots
      ensures pieChartData ==
        SortDesc(Reconciled(view, old(pieChartData), old(topFiveSpots), newTopFiveSpots, |fullList| == 0))
      ensures SortedDesc(pieChartData)
      ensures multiset(pieChartData) ==
        multiset(Reconciled(view, old(pieChartData), old(topFiveSpots), newTopFiveSpots, |fullList| == 0))
      ensures |newTopFiveSpots| == 0 && |fullList| == 0 ==> pieChartData == []
      ensures defaultMessage == (if Total(view, fullList) == 0 then DEFAULT_MESSAGE else "")
      ensures totalShown == Total(view, fullList)
    {
      var totalStudiedHours := GetTotalStudiedHours(fullList);
      defaultMessage := "";
      if totalStudiedHours == 0 {
        defaultMessage := DEFAULT_MESSAGE;
      }

      ReconcileTopFive(newTopFiveSpots, |fullList| == 0);
      ReconciledSize(view, old(pieChartData), old(topFiveSpots), newTopFiveSpots, |fullList| == 0);
      topFiveSpots := newTopFiveSpots;

      SortDescSorted(pieChartData);
      pieChartData := SortDesc(pieChartData);
      totalShown := totalStudiedHours;
    }

    /**
     * The edit steps of updatePieChart before its sort: clear the chart when there is
     * nothing to show, then add newcomers, update values and handle overtaking, each
     * under its own condition, all against the old top five.
     */
    method ReconcileTopFive(newTopFiveSpots: seq<S>, fullEmpty: bool)
      requires Valid()
      requires Reconcilable(view, pieChartData, topFiveSpots, newTopFiveSpots, fullEmpty)
      modifies this`pieChartData
      ensures Valid()
      ensures pieChartData == Reconciled(view, old(pieChartData), topFiveSpots, newTopFiveSpots, fullEmpty)
    {
      if |newTopFiveSpots| == 0 && fullEmpty && |pieChartData| != 0 {
        pieChartData := [];
      }
      ghost var c0 := pieChartData;

      if |newTopFiveSpots| > |topFiveSpots| {
        HandleAddingSpotIntoTopFive(newTopFiveSpots);
      }
      ghost var c1 := pieChartData;
      assert c1 == if |newTopFiveSpots| > |topFiveSpots| then AddNewcomers(view, c0, topFiveSpots, newTopFiveSpots) else c0;

      var same := IsSameSpots(newTopFiveSpots);
      if same {
        HandleSameSpots(newTopFiveSpots);
      }

      same := IsSameSpots(newTopFiveSpots);
      if !same && |newTopFiveSpots| <= |topFiveSpots| {
        HandleOvertakingSpots(newTopFiveSpots);
      }
    }

    /** Inserts, by the ordered rule, every spot of the new list that the old top five lacks. */
    method HandleAddingSpotIntoTopFive(updatedStudySpots: seq<S>)
      requires Valid()
      requires |updatedStudySpots| > |topFiveSpots|
      requires |pieChartData| + CountNew(view, topFiveSpots, updatedStudySpots) <= 5
      modifies this`pieChartData
      ensures Valid()
      ensures pieChartData == AddNewcomers(view, old(pieChartData), topFiveSpots, updatedStudySpots)
    {
      var i := 0;
      while i < |updatedStudySpots|
        invariant 0 <= i <= |updatedStudySpots|
        invariant Valid()
        invariant pieChartData == AddNewcomers(view, old(pieChartData), topFiveSpots, updatedStudySpots[..i])
      {
        var s := updatedStudySpots[i];
        assert updatedStudySpots[..i + 1][..i] == updatedStudySpots[..i];
        if !Contains(view, topFiveSpots, s) {
          CountNewPrefix(view, topFiveSpots, updatedStudySpots, i + 1);
          AddNewSpotIntoPieChart(s);
        }
        i := i + 1;
      }
      assert updatedStudySpots[..i] == updatedStudySpots;
    }

    /** Gives the first slice named after each spot that spot's hours. */
    method HandleSameSpots(updatedStudySpots: seq<S>)
      requires Valid()
      requires AllContained(view, updatedStudySpots, topFiveSpots)
      modifies this`pieChartData
      ensures Valid()
      ensures pieChartData == UpdateValues(view, old(pieChartData), updatedStudySpots)
    {
      var i := 0;
      while i < |updatedStudySpots|
        invariant 0 <= i <= |updatedStudySpots|
        invariant Valid()
        invariant pieChartData == UpdateValues(view, old(pieChartData), updatedStudySpots[..i])
      {
        var s := updatedStudySpots[i];
        assert updatedStudySpots[..i + 1][..i] == updatedStudySpots[..i];
        SetFirstNamedValue(view.name(s), view.hours(s));
        i := i + 1;
      }
      assert updatedStudySpots[..i] == updatedStudySpots;
    }

    /**
     * Removes the slice of the first old spot the new list lacks, then updates the
     * slices of the retained spots and inserts the newcomers by the ordered rule.
     */
    method HandleOvertakingSpots(updatedStudySpots: seq<S>)
      requires Valid()
      requires !AllContained(view, updatedStudySpots, topFiveSpots)
      requires HasVictim(view, topFiveSpots, updatedStudySpots)
      requires |RemoveNamed(pieChartData, VictimName(view, topFiveSpots, updatedStudySpots))|
        + CountNew(view, topFiveSpots, updatedStudySpots) <= 5
      modifies this`pieChartData
      ensures Valid()
      ensures pieChartData == Overtake(view, old(pieChartData), topFiveSpots, updatedStudySpots)
    {
      var k := FindSpotToBeRemoved(updatedStudySpots);
      var spotToBeRemoved := topFiveSpots[k];

      RemoveFirstNamed(view.name(spotToBeRemoved));
      RefreshSpots(updatedStudySpots);
    }

    /** The first loop of handleOvertakingSpots: the first old spot the new list lacks. */
    method FindSpotToBeRemoved(updatedStudySpots: seq<S>) returns (k: nat)
      requires HasVictim(view, topFiveSpots, updatedStudySpots)
      ensures k < |topFiveSpots| && !Contains(view, updatedStudySpots, topFiveSpots[k])
      ensures k == FirstAbsent(view, topFiveSpots, updatedStudySpots)
    {
      k := 0;
      while k < |topFiveSpots|
        invariant 0 <= k <= |topFiveSpots|
        invariant forall j | 0 <= j < k :: Contains(view, updatedStudySpots, topFiveSpots[j])
      {
        if !Contains(view, updatedStudySpots, topFiveSpots[k]) {
          break;
        }
        k := k + 1;
      }
      assert k == FirstAbsent(view, topFiveSpots, updatedStudySpots);
    }

    /**
     * The last loop of handleOvertakingSpots: a spot of the old top five updates its
     * slice, any other is inserted by the ordered rule.
     */
    method RefreshSpots(updatedStudySpots: seq<S>)
      requires Valid()
      requires |pieChartData| + CountNew(view, topFiveSpots, updatedStudySpots) <= 5
      modifies this`pieChartData
      ensures Valid()
      ensures pieChartData == Refresh(view, old(pieChartData), topFiveSpots, updatedStudySpots)
    {
      var i := 0;
      while i < |updatedStudySpots|
        invariant 0 <= i <= |updatedStudySpots|
        invariant Valid()
        invariant pieChartData == Refresh(view, old(pieChartData), topFiveSpots, updatedStudySpots[..i])
      {
        var s := updatedStudySpots[i];
        assert updatedStudySpots[..i + 1][..i] == updatedStudySpots[..i];
        if Contains(view, topFiveSpots, s) {
          SetFirstNamedValue(view.name(s), view.hours(s));
        } else {
          CountNewPrefix(view, topFiveSpots, updatedStudySpots, i + 1);
          AddNewSpotIntoPieChart(s);
        }
        i := i + 1;
      }
      assert updatedStudySpots[..i] == updatedStudySpots;
    }

    /**
     * Inserts the spot's slice immediately before the first slice with strictly fewer
     * hours, or appends it when there is none.
     */
    method AddNewSpotIntoPieChart(newSpot: S)
      requires Valid()
      requires |pieChartData| < 5
      modifies this`pieChartData
      ensures Valid()
      ensures pieChartData == Insert(old(pieChartData), Entry(view, newSpot))
    {
      var pieChartInitialSize := |pieChartData|;
      var data := Data(view.name(newSpot), view.hours(newSpot));
      InsertSplit(pieChartData, data);

      var index := 0;
      while index < |pieChartData|
        invariant 0 <= index <= |pieChartData|
        invariant pieChartData == old(pieChartData)
        invariant forall j | 0 <= j < index :: pieChartData[j].value >= data.value
      {
        if pieChartData[index].value < data.value {
          assert index == FirstSmaller(pieChartData, data.value);
          pieChartData := pieChartData[..index] + [data] + pieChartData[index..];
          break;
        }
        index := index + 1;
      }

      if pieChartInitialSize == |pieChartData| {
        assert FirstSmaller(pieChartData, data.value) == |pieChartData|;
        assert pieChartData[..|pieChartData|] == pieChartData;
        pieChartData := pieChartData + [data];
      }
    }

    /** The loop `setPieValue` on the first slice with the given name, then `break`. */
    method SetFirstNamedValue(name: string, value: int)
      requires Valid()
      modifies this`pieChartData
      ensures Valid()
      ensures pieChartData == SetValue(old(pieChartData), name, value)
    {
      var index := 0;
      while index < |pieChartData|
        invariant 0 <= index <= |pieChartData|
        invariant pieChartData == old(pieChartData)
        invariant forall j | 0 <= j < index :: pieChartData[j].name != name
      {
        if pieChartData[index].name == name {
          assert index == NameIndex(pieChartData, name);
          pieChartData := pieChartData[index := Data(name, value)];
          break;
        }
        index := index + 1;
      }
    }

    /** The loop `pieChartData.remove(d)` on the first slice with the given name, then `break`. */
    method RemoveFirstNamed(name: string)
      requires Valid()
      modifies this`pieChartData
      ensures Valid()
      ensures pieChartData == RemoveNamed(old(pieChartData), name)
    {
      var index := 0;
      while index < |pieChartData|
        invariant 0 <= index <= |pieChartData|
        invariant pieChartData == old(pieChartData)
        invariant forall j | 0 <= j < index :: pieChartData[j].name != name
      {
        if pieChartData[index].name == name {
          assert index == NameIndex(pieChartData, name);
          pieChartData := pieChartData[..index] + pieChartData[index + 1..];
          break;
        }
        index := index + 1;
      }
    }

    /** Whether every spot of the list is contained in the remembered top five. */
    method IsSameSpots(comparedList: seq<S>) returns (result: bool)
      ensures result <==> AllContained(view, comparedList, topFiveSpots)
    {
      result := true;
      var i := 0;
      while i < |comparedList|
        invariant 0 <= i <= |comparedList|
        invariant result
        invariant forall j | 0 <= j < i :: Contains(view, topFiveSpots, comparedList[j])
      {
        if !Contains(view, topFiveSpots, comparedList[i]) {
          result := false;
          break;
        }
        i := i + 1;
      }
    }

    /** The sum of the studied hours over the list, accumulated in a Java int. */
    method GetTotalStudiedHours(fullList: seq<S>) returns (totalHours: int)
      requires Total(view, fullList) <= INT_MAX
      ensures totalHours == Total(view, fullList)
    {
      totalHours := 0;
      var i := 0;
      while i < |fullList|
        invariant 0 <= i <= |fullList|
        invariant totalHours == Total(view, fullList[..i])
        invariant totalHours <= INT_MAX
      {
        assert fullList[..i + 1][..i] == fullList[..i];
        TotalPrefix(view, fullList, i + 1);
        totalHours := totalHours + view.hours(fullList[i]);
        i := i + 1;
      }
      assert fullList[..i] == fullList;
    }
  }
}
