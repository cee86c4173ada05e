/**
 * The data selection of the charts' axis tooltip: which axis triggered it, the
 * data index and axis value read from that axis, the axis id in use, the
 * axis configuration shown, and the cartesian series attached to that axis.
 */
module AxisTooltip {
  import opened Wrappers

  /** A JavaScript value that may also be `null` or `undefined`. */
  datatype Nullish<T> = Null | Undefined | Val(v: T)

  type AxisId = string
  type SeriesId = string

  /** The pointer position on one axis: an optional data index and the axis value there. */
  datatype AxisItem = AxisItem(index: Option<int>, value: int)

  /** `axisData`: what the pointer hits on each axis (each may be `null`). */
  datatype AxisInteractionData = AxisInteractionData(x: Nullish<AxisItem>, y: Nullish<AxisItem>)

  datatype SeriesType = Bar | Line | Scatter | Pie

  /** `['bar', 'line', 'scatter'].includes(seriesType)`. */
  predicate IsCartesian(t: SeriesType) {
    t == Bar || t == Line || t == Scatter
  }

  /** A defaultized series, reduced to its id and the axes it is attached to. */
  datatype SeriesItem = SeriesItem(id: SeriesId, xAxisKey: Option<AxisId>, yAxisKey: Option<AxisId>)

  /** `series[seriesType]`: the series of one type by id, and their display order. */
  datatype SeriesGroup = SeriesGroup(series: map<SeriesId, SeriesItem>, seriesOrder: seq<SeriesId>)

  /** The series context, in the key order `Object.keys` returns. */
  type SeriesContext = seq<(SeriesType, SeriesGroup)>

  /** An axis configuration from the cartesian context. */
  datatype AxisConfig = AxisConfig(id: AxisId, data: seq<int>)

  /** Every id in a group's `seriesOrder` names one of its series. */
  predicate GroupWellFormed(g: SeriesGroup) {
    forall k :: 0 <= k < |g.seriesOrder| ==> g.seriesOrder[k] in g.series
  }

  predicate ContextWellFormed(context: SeriesContext) {
    forall i :: 0 <= i < |context| ==> GroupWellFormed(context[i].1)
  }

  /** `axis && axis.index`: `null` and `undefined` pass through, otherwise the (possibly undefined) index. */
  function IndexOn(axis: Nullish<AxisItem>): (r: Nullish<int>)
    ensures r.Val? <==> axis.Val? && axis.v.index.Some?
    ensures r.Null? <==> axis.Null?
  {
    match axis
    case Null => Null
    case Undefined => Undefined
    case Val(item) => if item.index.Some? then Val(item.index.value) else Undefined
  }

  /** `axis && axis.value`. */
  function ValueOn(axis: Nullish<AxisItem>): (r: Nullish<int>)
    ensures r.Val? <==> axis.Val?
    ensures r.Val? ==> r.v == axis.v.value
  {
    match axis
    case Null => Null
    case Undefined => Undefined
    case Val(item) => Val(item.value)
  }

  /** `isXaxis`: `(axisData.x && axisData.x.index) !== undefined`. */
  function IsXAxis(data: AxisInteractionData): (r: bool)
    ensures r <==> data.x.Null? || (data.x.Val? && data.x.v.index.Some?)
  {
    IndexOn(data.x) != Undefined
  }

  /** `USED_AXIS_ID`: the first declared id of the chosen direction, `undefined` when there is none. */
  function UsedAxisId(isXAxis: bool, xAxisIds: seq<AxisId>, yAxisIds: seq<AxisId>): (r: Option<AxisId>)
    ensures var ids := if isXAxis then xAxisIds else yAxisIds;
            (r.Some? <==> |ids| > 0) && (r.Some? ==> r.value == ids[0])
  {
    var ids := if isXAxis then xAxisIds else yAxisIds;
    if |ids| > 0 then Some(ids[0]) else None
  }

  /** `axisKey === undefined || axisKey === USED_AXIS_ID` for the chosen direction. */
  predicate OnUsedAxis(item: SeriesItem, isXAxis: bool, used: Option<AxisId>) {
    var axisKey := if isXAxis then item.xAxisKey else item.yAxisKey;
    axisKey.None? || axisKey == used
  }

  /** The series of a group in `seriesOrder` order. */
  function Items(g: SeriesGroup): (r: seq<SeriesItem>)
    requires GroupWellFormed(g)
    ensures |r| == |g.seriesOrder|
    ensures forall k :: 0 <= k < |r| ==> r[k] == g.series[g.seriesOrder[k]]
  {
    seq(|g.seriesOrder|, k requires 0 <= k < |g.seriesOrder| => g.series[g.seriesOrder[k]])
  }

  /** All series of the cartesian groups, type by type in context order, each type in `seriesOrder` order. */
  function CartesianItems(context: SeriesContext): seq<SeriesItem>
    requires ContextWellFormed(context)
  {
    if context == [] then []
    else
      var last := context[|context| - 1];
      CartesianItems(context[..|context| - 1]) + (if IsCartesian(last.0) then Items(last.1) else [])
  }

  /** The series attached to the used axis, in the order given. */
  function OnAxis(items: seq<SeriesItem>, isXAxis: bool, used: Option<AxisId>): seq<SeriesItem>
  {
    if items == [] then []
    else (if OnUsedAxis(items[0], isXAxis, used) then [items[0]] else []) + OnAxis(items[1..], isXAxis, used)
  }

  lemma {:induction false} OnAxisAppend(a: seq<SeriesItem>, b: seq<SeriesItem>, isXAxis: bool, used: Option<AxisId>)
    ensures OnAxis(a + b, isXAxis, used) == OnAxis(a, isXAxis, used) + OnAxis(b, isXAxis, used)
  {
    if a == [] {
      assert a + b == b;
    } else {
      assert (a + b)[0] == a[0] && (a + b)[1..] == a[1..] + b;
      OnAxisAppend(a[1..], b, isXAxis, used);
    }
  }

  /** A series is kept exactly when it was there and it is attached to the used axis. */
  lemma {:induction false} OnAxisMembership(items: seq<SeriesItem>, isXAxis: bool, used: Option<AxisId>, s: SeriesItem)
    ensures s in OnAxis(items, isXAxis, used) <==> s in items && OnUsedAxis(s, isXAxis, used)
  {
    if items != [] {
      OnAxisMembership(items[1..], isXAxis, used, s);
      assert items == [items[0]] + items[1..];
    }
  }

  /** `a` is `b` with some elements left out, order kept. */
  predicate IsSubsequence<T(==)>(a: seq<T>, b: seq<T>)
    decreases |b|
  {
    if a == [] then true
    else if b == [] then false
    else (a[0] == b[0] && IsSubsequence(a[1..], b[1..])) || IsSubsequence(a, b[1..])
  }

  lemma {:induction false} OnAxisIsSubsequence(items: seq<SeriesItem>, isXAxis: bool, used: Option<AxisId>)
    ensures IsSubsequence(OnAxis(items, isXAxis, used), items)
  {
    if items != [] {
      OnAxisIsSubsequence(items[1..], isXAxis, used);
      var rest := OnAxis(items[1..], isXAxis, used);
      if OnUsedAxis(items[0], isXAxis, used) {
        assert OnAxis(items, isXAxis, used) == [items[0]] + rest;
        assert ([items[0]] + rest)[1..] == rest;
      } else {
        assert OnAxis(items, isXAxis, used) == rest;
        if rest != [] {
          assert IsSubsequence(rest, items[1..]);
        }
      }
    }
  }

  /** The inner `forEach` over one cartesian group: its series on the used axis are pushed, in `seriesOrder`. */
  method PushOnAxis(rep0: seq<SeriesItem>, ghost done: seq<SeriesItem>, group: SeriesGroup, isXAxis: bool, used: Option<AxisId>)
    returns (rep: seq<SeriesItem>)
    requires GroupWellFormed(group)
    requires rep0 == OnAxis(done, isXAxis, used)
    ensures rep == OnAxis(done + Items(group), isXAxis, used)
  {
    rep := rep0;
    ghost var items := Items(group);
    var j := 0;
    while j < |group.seriesOrder|
      invariant 0 <= j <= |items|
      invariant rep == rep0 + OnAxis(items[..j], isXAxis, used)
    {
      var item := group.series[group.seriesOrder[j]];
      assert items[..j + 1] == items[..j] + [item];
      OnAxisAppend(items[..j], [item], isXAxis, used);
      if OnUsedAxis(item, isXAxis, used) {
        AppendAssociates(rep0, OnAxis(items[..j], isXAxis, used), [item]);
        rep := rep + [item];
      } else {
        assert OnAxis(items[..j], isXAxis, used) + [] == OnAxis(items[..j], isXAxis, used);
      }
      j := j + 1;
    }
    assert items[..j] == items;
    OnAxisAppend(done, items, isXAxis, used);
  }

  lemma AppendAssociates<T>(a: seq<T>, b: seq<T>, c: seq<T>)
    ensures a + b + c == a + (b + c)
  {
  }

  /** `relevantSeries`: the nested `forEach` loops that push every matching series into `rep`. */
  method RelevantSeries(context: SeriesContext, isXAxis: bool, used: Option<AxisId>) returns (rep: seq<SeriesItem>)
    requires ContextWellFormed(context)
    ensures rep == OnAxis(CartesianItems(context), isXAxis, used)
  {
    rep := [];
    var i := 0;
    while i < |context|
      invariant 0 <= i <= |context|
      invariant rep == OnAxis(CartesianItems(context[..i]), isXAxis, used)
    {
      var (seriesType, group) := context[i];
      assert context[..i + 1][..i] == context[..i];
      assert context[..i + 1][i] == context[i];
      ghost var done := CartesianItems(context[..i]);
      assert CartesianItems(context[..i + 1])
          == done + (if IsCartesian(seriesType) then Items(group) else []);
      if IsCartesian(seriesType) {
        rep := PushOnAxis(rep, done, group, isXAxis, used);
      } else {
        assert done + [] == done;
      }
      i := i + 1;
    }
    assert context[..i] == context;
  }

  /**
   * A series is in the tooltip exactly when it belongs to a bar, line or
   * scatter group and is attached to the used axis (or to no axis); pie
   * series never appear.
   */
  lemma {:induction false} RelevantSeriesMembership(context: SeriesContext, isXAxis: bool, used: Option<AxisId>, s: SeriesItem)
    requires ContextWellFormed(context)
    ensures s in OnAxis(CartesianItems(context), isXAxis, used)
        <==> OnUsedAxis(s, isXAxis, used)
             && exists i :: 0 <= i < |context| && IsCartesian(context[i].0) && s in Items(context[i].1)
  {
    OnAxisMembership(CartesianItems(context), isXAxis, used, s);
    CartesianItemsMembership(context, s);
  }

  lemma {:induction false} CartesianItemsMembership(context: SeriesContext, s: SeriesItem)
    requires ContextWellFormed(context)
    ensures s in CartesianItems(context)
        <==> exists i :: 0 <= i < |context| && IsCartesian(context[i].0) && s in Items(context[i].1)
  {
    if context != [] {
      var n := |context| - 1;
      var init := context[..n];
      CartesianItemsMembership(init, s);
      assert forall i :: 0 <= i < n ==> init[i] == context[i];
      if s in CartesianItems(context) && s !in CartesianItems(init) {
        assert IsCartesian(context[n].0) && s in Items(context[n].1);
      }
    }
  }

  /** The tooltip lists the relevant series in their cartesian, type-by-type order. */
  lemma RelevantSeriesKeepsOrder(context: SeriesContext, isXAxis: bool, used: Option<AxisId>)
    requires ContextWellFormed(context)
    ensures IsSubsequence(OnAxis(CartesianItems(context), isXAxis, used), CartesianItems(context))
  {
    OnAxisIsSubsequence(CartesianItems(context), isXAxis, used);
  }

  /** `relevantAxis`: the configuration of the used axis in the chosen direction. */
  function RelevantAxis(isXAxis: bool, used: Option<AxisId>, xAxis: map<AxisId, AxisConfig>, yAxis: map<AxisId, AxisConfig>)
    : (r: Option<AxisConfig>)
    ensures var axes := if isXAxis then xAxis else yAxis;
            r.Some? <==> used.Some? && used.value in axes
    ensures r.Some? ==> r.value == (if isXAxis then xAxis else yAxis)[used.value]
  {
    var axes := if isXAxis then xAxis else yAxis;
    if used.Some? && used.value in axes then Some(axes[used.value]) else None
  }

  /** The props handed to the tooltip content. */
  datatype TooltipContent = TooltipContent(
    series: seq<SeriesItem>,
    axis: Option<AxisConfig>,
    dataIndex: Nullish<int>,
    axisValue: Nullish<int>)

  /** `ChartsAxisTooltipContent`: the data part of the props it renders the content with. */
  method AxisTooltipContent(
    data: AxisInteractionData,
    xAxisIds: seq<AxisId>, xAxis: map<AxisId, AxisConfig>,
    yAxisIds: seq<AxisId>, yAxis: map<AxisId, AxisConfig>,
    context: SeriesContext)
    returns (content: TooltipContent)
    requires ContextWellFormed(context)
    ensures var isX := IsXAxis(data);
            var chosen := if isX then data.x else data.y;
            var used := UsedAxisId(isX, xAxisIds, yAxisIds);
            && content.dataIndex == IndexOn(chosen)
            && content.axisValue == ValueOn(chosen)
            && content.axis == RelevantAxis(isX, used, xAxis, yAxis)
            && content.series == OnAxis(CartesianItems(context), isX, used)
  {
    var isXaxis := IsXAxis(data);
    var dataIndex := if isXaxis then IndexOn(data.x) else IndexOn(data.y);
    var axisValue := if isXaxis then ValueOn(data.x) else ValueOn(data.y);
    var usedAxisId := UsedAxisId(isXaxis, xAxisIds, yAxisIds);
    var relevantSeries := RelevantSeries(context, isXaxis, usedAxisId);
    var relevantAxis := RelevantAxis(isXaxis, usedAxisId, xAxis, yAxis);
    content := TooltipContent(relevantSeries, relevantAxis, dataIndex, axisValue);
  }

  /** When the pointer has a data index on x, x is the axis used and both index and value are x's. */
  lemma XIndexSelectsX(data: AxisInteractionData)
    requires data.x.Val? && data.x.v.index.Some?
    ensures IsXAxis(data)
    ensures var chosen := if IsXAxis(data) then data.x else data.y;
            IndexOn(chosen) == Val(data.x.v.index.value) && ValueOn(chosen) == Val(data.x.v.value)
  {
  }

  /** When x is undefined or has no data index, the y axis is used and both index and value come from y. */
  lemma NoXIndexSelectsY(data: AxisInteractionData)
    requires data.x.Undefined? || (data.x.Val? && data.x.v.index.None?)
    ensures !IsXAxis(data)
    ensures var chosen := if IsXAxis(data) then data.x else data.y;
            IndexOn(chosen) == IndexOn(data.y) && ValueOn(chosen) == ValueOn(data.y)
  {
  }
}
