/**
 * The toggle logic of the IntegerBypasser front end (js/integer_bypasser.js): which inputs are
 * control slots, the name of the next input, the mode written to an upstream node, the
 * `active_count` widget and the toggles it drives, and the pruning of stale toggle widgets.
 */
module IntegerBypasser {
  import opened Common
  import opened Text
  import opened JsText

  /** LiteGraph's `ALWAYS` and `BYPASS` node modes. */
  const ModeAlways := 0
  const ModeBypass := 4
  const ActiveCountName := "active_count"
  const TogglePrefix := "bypass_toggle_"

  /** `safeInt` on an integer: the value itself, or 0 for a negative one. */
  function SafeInt(v: int): (r: nat)
    ensures r >= v && (r == v || r == 0)
  {
    if v < 0 then 0 else v
  }

  function ModeFor(enabled: bool): int
  {
    if enabled then ModeAlways else ModeBypass
  }

  /** A node of the graph, seen through the one field the bypasser writes. */
  class GraphNode {
    var mode: int

    constructor (mode: int)
      ensures this.mode == mode
    {
      this.mode := mode;
    }
  }

  /**
   * `setNodeMode`: an enabled node runs always, a disabled one is bypassed; a missing node is
   * ignored. `written` tells whether the mode was actually changed (which is when the source
   * also redraws the canvas).
   */
  method SetNodeMode(target: GraphNode?, enabled: bool) returns (written: bool)
    modifies target
    ensures target != null ==> target.mode == ModeFor(enabled)
    ensures written <==> target != null && old(target.mode) != ModeFor(enabled)
  {
    if target == null {
      return false;
    }
    var newMode := ModeFor(enabled);
    if target.mode == newMode {
      return false;
    }
    target.mode := newMode;
    return true;
  }

  // ---------------------------------------------------------------------------------------------
  // Inputs: each entry is `None` for a missing input or `Some(name)`.

  predicate IsControlInput(input: Option<string>)
  {
    input.Some? && input.value != ActiveCountName
  }

  /** The control slots among `inputs`, in ascending order. */
  function ControlSlots(inputs: seq<Option<string>>): seq<int>
  {
    if inputs == [] then []
    else
      var last := |inputs| - 1;
      ControlSlots(inputs[..last]) + (if IsControlInput(inputs[last]) then [last] else [])
  }

  /**
   * The slots are exactly the indices of present inputs not named `active_count`, each once and
   * in ascending order.
   */
  lemma {:induction false} ControlSlotsSpec(inputs: seq<Option<string>>)
    ensures forall k :: k in ControlSlots(inputs) <==> 0 <= k < |inputs| && IsControlInput(inputs[k])
    ensures forall a, b :: 0 <= a < b < |ControlSlots(inputs)| ==> ControlSlots(inputs)[a] < ControlSlots(inputs)[b]
  {
    if inputs != [] {
      var last := |inputs| - 1;
      var init := inputs[..last];
      ControlSlotsSpec(init);
      var before := ControlSlots(init);
      assert forall k :: k in before ==> k < last;
      forall k ensures k in ControlSlots(inputs) <==> 0 <= k < |inputs| && IsControlInput(inputs[k]) {
        if 0 <= k < last { assert init[k] == inputs[k]; }
      }
      var after := ControlSlots(inputs);
      forall a, b | 0 <= a < b < |after| ensures after[a] < after[b] {
        if b < |before| {
          assert after[a] == before[a] && after[b] == before[b];
        } else {
          assert after[a] == before[a] && before[a] in before;
        }
      }
    }
  }

  /** `getControlSlots`. */
  method GetControlSlots(inputs: seq<Option<string>>) returns (slots: seq<int>)
    ensures slots == ControlSlots(inputs)
  {
    slots := [];
    var i := 0;
    while i < |inputs|
      invariant 0 <= i <= |inputs|
      invariant slots == ControlSlots(inputs[..i])
    {
      assert inputs[..i + 1][..i] == inputs[..i];
      var input := inputs[i];
      if input.Some? && input.value != ActiveCountName {
        slots := slots + [i];
      }
      i := i + 1;
    }
    assert inputs[..|inputs|] == inputs;
  }

  /** `/^in\d+$/i`: `in` in either case, then one or more ASCII digits. */
  predicate IsInName(name: string)
  {
    |name| >= 3 && (name[0] == 'i' || name[0] == 'I') && (name[1] == 'n' || name[1] == 'N') && AllDigits(name[2..])
  }

  function InNumber(name: string): nat
    requires IsInName(name)
  {
    DigitsValue(name[2..])
  }

  /** The numbers taken by the inputs named `in<digits>`. */
  function UsedNumbers(inputs: seq<Option<string>>): set<int>
  {
    if inputs == [] then {}
    else
      var last := inputs[|inputs| - 1];
      UsedNumbers(inputs[..|inputs| - 1]) + (if last.Some? && IsInName(last.value) then {InNumber(last.value)} else {})
  }

  lemma {:induction false} UsedNumbersMembership(inputs: seq<Option<string>>, k: int)
    requires 0 <= k < |inputs| && inputs[k].Some? && IsInName(inputs[k].value)
    ensures InNumber(inputs[k].value) in UsedNumbers(inputs)
  {
    var last := |inputs| - 1;
    if k < last {
      assert inputs[..last][k] == inputs[k];
      UsedNumbersMembership(inputs[..last], k);
    }
  }

  /** The numbers 1 .. n-1 all in `s` make `s` at least that large. */
  lemma {:induction false} RangeInSetBound(n: int, s: set<int>)
    requires n >= 1 && forall k :: 1 <= k < n ==> k in s
    ensures |s| >= n - 1
    decreases n
  {
    if n > 1 {
      RangeInSetBound(n - 1, s - {n - 1});
    }
  }

  /** The first loop of `getNextInName`: the numbers of the `in<digits>` inputs, read with `parseInt`. */
  method CollectUsedNumbers(inputs: seq<Option<string>>) returns (used: set<int>)
    ensures used == UsedNumbers(inputs)
  {
    used := {};
    var i := 0;
    while i < |inputs|
      invariant 0 <= i <= |inputs|
      invariant used == UsedNumbers(inputs[..i])
    {
      assert inputs[..i + 1][..i] == inputs[..i];
      var inp := inputs[i];
      if inp.Some? && inp.value != [] && IsInName(inp.value) {
        ParseIntOfDigits(inp.value[2..]);
        var number := ParseInt(inp.value[2..]);
        used := used + {number.value};
      }
      i := i + 1;
    }
    assert inputs[..|inputs|] == inputs;
  }

  /** `getNextInName`: `in<n>` for the least positive `n` no `in<digits>` input uses. */
  method GetNextInName(inputs: seq<Option<string>>) returns (name: string)
    ensures IsInName(name) && name == "in" + Decimal(InNumber(name))
    ensures InNumber(name) >= 1 && InNumber(name) !in UsedNumbers(inputs)
    ensures forall k :: 1 <= k < InNumber(name) ==> k in UsedNumbers(inputs)
  {
    var used := CollectUsedNumbers(inputs);
    var n := 1;
    while n in used
      invariant n >= 1 && forall k :: 1 <= k < n ==> k in used
      decreases |used| + 1 - n
    {
      RangeInSetBound(n + 1, used);
      n := n + 1;
    }
    name := "in" + Decimal(n);
    assert name[2..] == Decimal(n);
  }

  /** The new name is no existing input's name. */
  lemma NextInNameIsFresh(inputs: seq<Option<string>>, n: nat)
    requires n !in UsedNumbers(inputs)
    ensures forall k :: 0 <= k < |inputs| ==> inputs[k] != Some("in" + Decimal(n))
  {
    var name := "in" + Decimal(n);
    assert name[2..] == Decimal(n);
    forall k | 0 <= k < |inputs| ensures inputs[k] != Some(name) {
      if inputs[k] == Some(name) {
        UsedNumbersMembership(inputs, k);
      }
    }
  }

  // ---------------------------------------------------------------------------------------------
  // The toggles and the `active_count` widget.

  /** The length of the longest prefix of `s` that is all `true`. */
  function LeadingOn(s: seq<bool>): nat
  {
    if s == [] || !s[0] then 0 else 1 + LeadingOn(s[1..])
  }

  /** `LeadingOn(s)` is the one `n` with `s[..n]` all on and `s[n]` off (or `n == |s|`). */
  lemma {:induction false} LeadingOnIsLongestPrefix(s: seq<bool>, n: int)
    requires 0 <= n <= |s| && (forall i :: 0 <= i < n ==> s[i]) && (n < |s| ==> !s[n])
    ensures LeadingOn(s) == n
  {
    if n > 0 {
      LeadingOnIsLongestPrefix(s[1..], n - 1);
    }
  }

  /** The counting loop of `updateActiveCount`: stops at the first toggle that is off. */
  method CountLeadingOn(toggles: array<bool>) returns (count: nat)
    ensures count == LeadingOn(toggles[..])
  {
    count := 0;
    while count < toggles.Length
      invariant 0 <= count <= toggles.Length
      invariant forall i :: 0 <= i < count ==> toggles[i]
    {
      if !toggles[count] {
        break;
      }
      count := count + 1;
    }
    LeadingOnIsLongestPrefix(toggles[..], count);
  }

  /** `Math.max(0, Math.min(count, n))`. */
  function Clamp(count: int, n: nat): (r: nat)
    ensures r <= n
    ensures 0 <= count <= n ==> r == count
    ensures count < 0 ==> r == 0
    ensures count > n ==> r == n
  {
    if count < 0 then 0 else if count > n then n else count
  }

  /** The clamped count is the number in `[0, n]` nearest to the requested count. */
  lemma ClampIsNearest(count: int, n: nat, m: int)
    requires 0 <= m <= n
    ensures var r := Clamp(count, n); (if r <= count then count - r else r - count) <= (if m <= count then count - m else m - count)
  {
  }

  /** The toggles `applyActiveCount` aims at: the first `c` on, the rest off. */
  function Target(n: nat, c: int): (r: seq<bool>)
    ensures |r| == n && forall i :: 0 <= i < n ==> r[i] == (i < c)
  {
    seq(n, i => i < c)
  }

  /** Counting the toggles `applyActiveCount(c)` leaves gives `c` back: the two operations agree. */
  lemma {:induction false} CountOfTarget(n: nat, c: int)
    requires 0 <= c <= n
    ensures LeadingOn(Target(n, c)) == c
  {
    LeadingOnIsLongestPrefix(Target(n, c), c);
  }

  /**
   * The mode of `g` after `applyActiveCount` has visited toggles `0 .. k-1`: each toggle whose value
   * had to change sets the mode of the node on its slot.
   */
  function ModeAfter(g: GraphNode, initial: int, before: seq<bool>, upstream: seq<GraphNode?>, c: int, k: nat): int
    requires k <= |before| && k <= |upstream|
  {
    if k == 0 then initial
    else if upstream[k - 1] == g && before[k - 1] != (k - 1 < c) then ModeFor(k - 1 < c)
    else ModeAfter(g, initial, before, upstream, c, k - 1)
  }

  /**
   * A node wired to one toggle only ends up enabled exactly when that toggle ends up on, and keeps
   * its mode when the toggle already had the right value.
   */
  lemma {:induction false} ModeAfterSingleSlot(g: GraphNode, initial: int, before: seq<bool>, upstream: seq<GraphNode?>,
                                              c: int, j: int, k: nat)
    requires k <= |before| && k <= |upstream| && 0 <= j < k
    requires upstream[j] == g && forall i :: 0 <= i < k && i != j ==> upstream[i] != g
    ensures ModeAfter(g, initial, before, upstream, c, k) == if before[j] != (j < c) then ModeFor(j < c) else initial
  {
    if k - 1 > j {
      ModeAfterSingleSlot(g, initial, before, upstream, c, j, k - 1);
    } else {
      ModeAfterUntouched(g, initial, before, upstream, c, j);
    }
  }

  /** A node on no visited slot keeps its mode. */
  lemma {:induction false} ModeAfterUntouched(g: GraphNode, initial: int, before: seq<bool>, upstream: seq<GraphNode?>,
                                             c: int, k: nat)
    requires k <= |before| && k <= |upstream|
    requires forall i :: 0 <= i < k ==> upstream[i] != g
    ensures ModeAfter(g, initial, before, upstream, c, k) == initial
  {
    if k > 0 {
      ModeAfterUntouched(g, initial, before, upstream, c, k - 1);
    }
  }

  /**
   * The toggle widgets of one node, in the order `updateActiveCount` sorts them (toggle `i` is the
   * widget `bypass_toggle_<i>`), the node wired to each toggle's slot (`null` when nothing is
   * connected) and the value of the `active_count` widget (`None` when there is no such widget).
   */
  class ToggleBank {
    var toggles: array<bool>
    var upstream: seq<GraphNode?>
    var activeCount: Option<int>

    ghost predicate Valid()
      reads this
    {
      toggles.Length == |upstream|
    }

    ghost function UpstreamNodes(): set<GraphNode>
      reads this
    {
      set g: GraphNode | g in upstream
    }

    constructor (values: seq<bool>, upstream: seq<GraphNode?>, activeCount: Option<int>)
      requires |values| == |upstream|
      ensures Valid() && fresh(toggles)
      ensures toggles[..] == values && this.upstream == upstream && this.activeCount == activeCount
    {
      toggles := new bool[|values|](i requires 0 <= i < |values| => values[i]);
      this.upstream := upstream;
      this.activeCount := activeCount;
    }

    /** `updateActiveCount`: the widget, when present, shows the number of leading toggles that are on. */
    method UpdateActiveCount()
      requires Valid()
      modifies this
      ensures toggles == old(toggles) && upstream == old(upstream) && Valid()
      ensures activeCount == if old(activeCount).Some? then Some(LeadingOn(toggles[..])) else None
    {
      var count := CountLeadingOn(toggles);
      if activeCount.Some? && activeCount.value != count {
        activeCount := Some(count);
      }
    }

    /**
     * `applyActiveCount(count)`: the first `Clamp(count)` toggles are switched on and the rest off.
     * Each toggle that changes goes through `onToggleChanged`, which sets the mode of the node on
     * its slot and refreshes the `active_count` widget; toggles that already had the right value
     * are not touched.
     */
    method ApplyActiveCount(count: int)
      requires Valid()
      modifies this, toggles, UpstreamNodes()
      ensures toggles == old(toggles) && upstream == old(upstream) && Valid()
      ensures toggles[..] == Target(toggles.Length, Clamp(count, toggles.Length))
      ensures forall g :: g in old(UpstreamNodes()) ==>
        g.mode == ModeAfter(g, old(g.mode), old(toggles[..]), upstream, Clamp(count, toggles.Length), |upstream|)
      ensures activeCount ==
        if old(activeCount).Some? && old(toggles[..]) != toggles[..] then Some(Clamp(count, toggles.Length))
        else old(activeCount)
    {
      var n := toggles.Length;
      var clamped := Clamp(count, n);
      ghost var before := toggles[..];
      ghost var changed := false;
      var i := 0;
      while i < n
        invariant 0 <= i <= n
        invariant toggles == old(toggles) && upstream == old(upstream) && Valid()
        invariant forall j :: 0 <= j < i ==> toggles[j] == (j < clamped)
        invariant forall j :: i <= j < n ==> toggles[j] == before[j]
        invariant forall g :: g in old(UpstreamNodes()) ==> g.mode == ModeAfter(g, old(g.mode), before, upstream, clamped, i)
        invariant activeCount.Some? == old(activeCount).Some?
        invariant changed <==> exists j :: 0 <= j < i && before[j] != (j < clamped)
        invariant changed && activeCount.Some? ==> activeCount == Some(LeadingOn(toggles[..]))
        invariant !changed ==> activeCount == old(activeCount)
      {
        var shouldBeActive := i < clamped;
        if toggles[i] != shouldBeActive {
          toggles[i] := shouldBeActive;
          var _ := SetNodeMode(upstream[i], shouldBeActive);
          UpdateActiveCount();
          changed := true;
        }
        i := i + 1;
      }
      assert toggles[..] == Target(n, clamped);
      CountOfTarget(n, clamped);
      assert changed <==> before != toggles[..] by {
        if changed {
          var j :| 0 <= j < n && before[j] != (j < clamped);
          assert toggles[..][j] != before[j];
        }
      }
    }
  }

  // ---------------------------------------------------------------------------------------------
  // Pruning the toggle widgets.

  /** A widget of the node, seen through its name (`None` when it has none). */
  datatype Widget = Widget(name: Option<string>)

  predicate IsToggleWidget(w: Widget)
  {
    w.name.Some? && TogglePrefix <= w.name.value
  }

  /** `parseInt(w.name.split("_").pop())`, `None` for `NaN`. */
  function ToggleIndex(w: Widget): Option<int>
    requires IsToggleWidget(w)
  {
    ParseInt(LastUnderscorePart(w.name.value))
  }

  /** The filter of `refreshInputsAndToggles`: other widgets stay, toggles stay when their number is at most the bound. */
  predicate KeepWidget(w: Widget, maxToggleIndex: int)
  {
    !IsToggleWidget(w) || (ToggleIndex(w).Some? && ToggleIndex(w).value <= maxToggleIndex)
  }

  /** `Math.max(0, controlSlots.length - 1)`. */
  function MaxToggleIndex(controlSlotCount: nat): nat
  {
    if controlSlotCount == 0 then 0 else controlSlotCount - 1
  }

  /** The widgets `keep` accepts, in their order. */
  function FilterWidgets(widgets: seq<Widget>, keep: Widget -> bool): seq<Widget>
  {
    if widgets == [] then []
    else
      var last := widgets[|widgets| - 1];
      FilterWidgets(widgets[..|widgets| - 1], keep) + (if keep(last) then [last] else [])
  }

  /** `node.widgets.filter(...)` with the toggle filter. */
  function PruneWidgets(widgets: seq<Widget>, maxToggleIndex: int): seq<Widget>
  {
    FilterWidgets(widgets, w => KeepWidget(w, maxToggleIndex))
  }

  lemma {:induction false} FilterWidgetsMembership(widgets: seq<Widget>, keep: Widget -> bool, w: Widget)
    ensures w in FilterWidgets(widgets, keep) <==> w in widgets && keep(w)
  {
    if widgets != [] {
      var init := widgets[..|widgets| - 1];
      FilterWidgetsMembership(init, keep, w);
      assert widgets == init + [widgets[|widgets| - 1]];
    }
  }

  lemma {:induction false} FilterWidgetsIdempotent(widgets: seq<Widget>, keep: Widget -> bool)
    ensures FilterWidgets(FilterWidgets(widgets, keep), keep) == FilterWidgets(widgets, keep)
  {
    if widgets != [] {
      var init := widgets[..|widgets| - 1];
      var last := widgets[|widgets| - 1];
      FilterWidgetsIdempotent(init, keep);
      var p := FilterWidgets(init, keep);
      assert FilterWidgets(p, keep) == p;
      if keep(last) {
        var q := p + [last];
        assert FilterWidgets(widgets, keep) == q;
        assert q[..|q| - 1] == p && q[|q| - 1] == last;
        assert FilterWidgets(q, keep) == FilterWidgets(p, keep) + [last];
      } else {
        assert FilterWidgets(widgets, keep) == p;
      }
    }
  }

  /** A widget survives pruning exactly when it was there and passes the filter. */
  lemma PruneWidgetsMembership(widgets: seq<Widget>, maxToggleIndex: int, w: Widget)
    ensures w in PruneWidgets(widgets, maxToggleIndex) <==> w in widgets && KeepWidget(w, maxToggleIndex)
  {
    FilterWidgetsMembership(widgets, w => KeepWidget(w, maxToggleIndex), w);
  }

  /** Pruning twice prunes nothing more. */
  lemma PruneWidgetsIdempotent(widgets: seq<Widget>, maxToggleIndex: int)
    ensures PruneWidgets(PruneWidgets(widgets, maxToggleIndex), maxToggleIndex) == PruneWidgets(widgets, maxToggleIndex)
  {
    FilterWidgetsIdempotent(widgets, w => KeepWidget(w, maxToggleIndex));
  }

  /** The text after the last underscore of a toggle name ending in a number is that number's digits. */
  lemma ToggleNameSuffix(k: nat)
    ensures LastUnderscorePart(TogglePrefix + Decimal(k)) == Decimal(k)
  {
    var d := Decimal(k);
    var s := TogglePrefix + d;
    assert forall i :: |TogglePrefix| <= i < |s| ==> s[i] == d[i - |TogglePrefix|];
    forall i | |TogglePrefix| <= i < |s| ensures s[i] != '_' {
      assert IsDigit(d[i - |TogglePrefix|]);
    }
    assert s[|TogglePrefix| - 1] == '_';
    assert LastIndexOf(s, '_') == |TogglePrefix| - 1;
    assert s[|TogglePrefix|..] == d;
  }

  /** The toggle `bypass_toggle_<k>` is kept exactly when `k` is within the bound. */
  lemma CanonicalToggleKept(k: nat, maxToggleIndex: int)
    ensures KeepWidget(Widget(Some(TogglePrefix + Decimal(k))), maxToggleIndex) <==> k <= maxToggleIndex
  {
    var w := Widget(Some(TogglePrefix + Decimal(k)));
    assert IsToggleWidget(w);
    ToggleNameSuffix(k);
    ParseIntDecimal(k);
  }

  /** The bypasser node's inputs and widgets. */
  class BypasserNode {
    var inputs: seq<Option<string>>
    var widgets: seq<Widget>

    constructor (inputs: seq<Option<string>>, widgets: seq<Widget>)
      ensures this.inputs == inputs && this.widgets == widgets
    {
      this.inputs := inputs;
      this.widgets := widgets;
    }

    /** The pruning step of `refreshInputsAndToggles`: toggles beyond the last control slot are dropped. */
    method PruneToggles()
      modifies this
      ensures inputs == old(inputs)
      ensures widgets == PruneWidgets(old(widgets), MaxToggleIndex(|ControlSlots(inputs)|))
    {
      var controlSlots := GetControlSlots(inputs);
      var maxToggleIndex := MaxToggleIndex(|controlSlots|);
      widgets := PruneWidgets(widgets, maxToggleIndex);
    }
  }
}
