/** The TaskFilters component: the "items left" counter, the three filter
    buttons with the selected one highlighted, and the Clear Completed
    button. It keeps no state; every rule is a choice over its props. */
module TaskFiltersComponent {
  import opened TaskStore

  /** The two counter suffixes of the string table ("item left", "items left"). */
  datatype CounterLabel = ItemLeft | ItemsLeft

  /** What the counter shows: a number and a suffix. */
  datatype Counter = Counter(count: int, suffix: CounterLabel)

  /** The counter for `activeCount`: the number itself, with the singular
      suffix for exactly one task and the plural one otherwise (0 included). */
  function CounterFor(activeCount: int): (c: Counter)
    ensures c.count == activeCount
    ensures c.suffix == ItemLeft <==> activeCount == 1
  {
    Counter(activeCount, if activeCount == 1 then ItemLeft else ItemsLeft)
  }

  /** The buttons of the component. */
  datatype Control = FilterButton(value: Filter) | ClearCompletedButton

  /** The filter buttons in the order they are rendered: All, Active, Completed. */
  const FilterButtons: seq<Control> := [FilterButton(All), FilterButton(Active), FilterButton(Completed)]

  /** Whether a button carries the highlighting class: a filter button does
      when its value is the current filter; Clear Completed never does. */
  predicate Highlighted(current: Filter, c: Control)
    ensures Highlighted(current, c) <==> c == FilterButton(current)
  {
    c.FilterButton? && c.value == current
  }

  /** The callbacks a click invokes: `onFilterChange(value)` or `onClearCompleted()`. */
  datatype FiltersIntent = FilterChange(f: Filter) | ClearCompletedRequest

  /** The intent a click on a button emits: each filter button its own
      value, the Clear Completed button the clear request. */
  function Click(c: Control): (i: FiltersIntent)
    ensures c.FilterButton? <==> i.FilterChange?
    ensures c.FilterButton? ==> i.f == c.value
  {
    match c
    case FilterButton(v) => FilterChange(v)
    case ClearCompletedButton => ClearCompletedRequest
  }

  /** Whatever the current filter, exactly one filter button is highlighted:
      the one whose value it is. */
  lemma ExactlyOneHighlighted(current: Filter)
    ensures (set c | c in FilterButtons && Highlighted(current, c)) == {FilterButton(current)}
    ensures FilterButton(current) in FilterButtons
    ensures !Highlighted(current, ClearCompletedButton)
  {
    var hs := set c | c in FilterButtons && Highlighted(current, c);
    assert FilterButton(current) in FilterButtons by {
      match current
      case All => assert FilterButtons[0] == FilterButton(All);
      case Active => assert FilterButtons[1] == FilterButton(Active);
      case Completed => assert FilterButtons[2] == FilterButton(Completed);
    }
    assert FilterButton(current) in hs;
  }

  /** Every filter value has its button, which emits that value; no two
      filter buttons emit the same intent. */
  lemma FilterButtonsEmitEveryFilter()
    ensures forall f: Filter :: FilterButton(f) in FilterButtons && Click(FilterButton(f)) == FilterChange(f)
    ensures forall j, k :: 0 <= j < k < |FilterButtons| ==> Click(FilterButtons[j]) != Click(FilterButtons[k])
  {
    forall f: Filter ensures FilterButton(f) in FilterButtons {
      ExactlyOneHighlighted(f);
    }
  }

  /** The counter the App shows for a list is singular exactly when one task
      is shown under the 'active' filter. */
  lemma CounterForList(ts: seq<Task>)
    ensures CounterFor(ActiveCount(ts)).count == |View(ts, Active)|
    ensures CounterFor(ActiveCount(ts)).suffix == ItemLeft <==> |View(ts, Active)| == 1
  {
    ActiveCountIsActiveView(ts);
  }
}
