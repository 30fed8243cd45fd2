/**
 * `renderTasks` (script.js) as a function from the task sequence to the list
 * container's children. Each child is an abstract display item: the empty-state
 * placeholder, or one task's list item with its class, its four text lines, its
 * checkbox and the id the checkbox toggles.
 */
module Render {
  import opened Wrappers
  import opened Tasks

  const EmptyText := "No tasks yet. Add your first civic action above."
  const WhyPrefix := "Why It Matters: "
  const DomainPrefix := "Domain: "
  const StartDatePrefix := "Start Date: "
  const ToggleLabel := " Mark complete"
  const ItemClass := "task-item"
  const CompletedItemClass := "task-item completed"

  datatype Item =
    | Placeholder(text: string)
    | TaskItem(
        className: string,
        heading: string,
        whyLine: string,
        domainLine: string,
        startDateLine: string,
        checked: bool,
        caption: string,
        togglesId: string)

  /** The list item for one task; its checkbox and its class both follow the completion flag. */
  function ItemOf(t: Task): (item: Item)
    ensures item.TaskItem? && item.togglesId == t.id
    ensures item.checked <==> t.completed
    ensures item.className == CompletedItemClass <==> t.completed
    ensures item.className == ItemClass <==> !t.completed
  {
    TaskItem(
      if t.completed then CompletedItemClass else ItemClass,
      t.title,
      WhyPrefix + t.why,
      DomainPrefix + t.domain,
      StartDatePrefix + t.startDate,
      t.completed,
      ToggleLabel,
      t.id)
  }

  /** The `forEach` part: one item per task, in task order. */
  function Items(tasks: seq<Task>): (r: seq<Item>)
    ensures |r| == |tasks|
    ensures forall i :: 0 <= i < |tasks| ==> r[i] == ItemOf(tasks[i])
  {
    if tasks == [] then [] else [ItemOf(tasks[0])] + Items(tasks[1..])
  }

  /**
   * What the container holds after `renderTasks(tasks)`: the placeholder alone
   * when there are no tasks, otherwise exactly one task item per task, in order.
   */
  function View(tasks: seq<Task>): (r: seq<Item>)
    ensures tasks == [] <==> r == [Placeholder(EmptyText)]
    ensures tasks != [] ==> |r| == |tasks| && forall i :: 0 <= i < |r| ==> r[i] == ItemOf(tasks[i])
    ensures forall i :: 0 <= i < |r| ==> (r[i].Placeholder? <==> tasks == [])
  {
    if |tasks| == 0 then [Placeholder(EmptyText)] else Items(tasks)
  }

  /** `s` with the prefix `p` removed, if `s` starts with `p`. */
  function StripPrefix(p: string, s: string): (r: Option<string>)
    ensures r.Some? <==> p <= s
    ensures r.Some? ==> s == p + r.value
  {
    if p <= s then Some(s[|p|..]) else None
  }

  /**
   * Reads a task back from a list item: the inverse of `ItemOf`. Fails on the
   * placeholder and on any item that `ItemOf` could not have produced.
   */
  function TaskOfItem(item: Item): (r: Option<Task>)
    ensures r.Some? ==> ItemOf(r.value) == item
  {
    match item
    case Placeholder(_) => None
    case TaskItem(cls, heading, whyLine, domainLine, startDateLine, checked, caption, id) =>
      var why := StripPrefix(WhyPrefix, whyLine);
      var domain := StripPrefix(DomainPrefix, domainLine);
      var startDate := StripPrefix(StartDatePrefix, startDateLine);
      if cls == (if checked then CompletedItemClass else ItemClass) && caption == ToggleLabel
         && why.Some? && domain.Some? && startDate.Some?
      then Some(Task(id, heading, why.value, domain.value, startDate.value, checked))
      else None
  }

  /** Reads back a run of task items; fails if any of them is not a task item. */
  function TasksOfItems(items: seq<Item>): (r: Option<seq<Task>>)
    ensures r.Some? ==> Items(r.value) == items
  {
    if items == [] then Some([])
    else
      match (TaskOfItem(items[0]), TasksOfItems(items[1..]))
      case (Some(t), Some(ts)) => Some([t] + ts)
      case _ => None
  }

  /** Reads back a whole container: the inverse of `View`. */
  function TasksOfView(items: seq<Item>): (r: Option<seq<Task>>)
    ensures r.Some? ==> View(r.value) == items
  {
    if items == [Placeholder(EmptyText)] then Some([])
    else if items == [] then None
    else TasksOfItems(items)
  }

  /** Nothing a task carries is lost in its list item. */
  lemma ItemRoundTrip(t: Task)
    ensures TaskOfItem(ItemOf(t)) == Some(t)
  {
    assert (WhyPrefix + t.why)[|WhyPrefix|..] == t.why;
    assert (DomainPrefix + t.domain)[|DomainPrefix|..] == t.domain;
    assert (StartDatePrefix + t.startDate)[|StartDatePrefix|..] == t.startDate;
  }

  lemma {:induction false} ItemsRoundTrip(tasks: seq<Task>)
    ensures TasksOfItems(Items(tasks)) == Some(tasks)
  {
    if tasks != [] {
      var items := Items(tasks);
      assert items == [ItemOf(tasks[0])] + Items(tasks[1..]);
      assert items[0] == ItemOf(tasks[0]) && items[1..] == Items(tasks[1..]);
      ItemRoundTrip(tasks[0]);
      ItemsRoundTrip(tasks[1..]);
      assert TasksOfItems(items) == Some([tasks[0]] + tasks[1..]);
      assert [tasks[0]] + tasks[1..] == tasks;
    }
  }

  /** The rendered container determines the task sequence it was rendered from. */
  lemma ViewRoundTrip(tasks: seq<Task>)
    ensures TasksOfView(View(tasks)) == Some(tasks)
  {
    if tasks != [] {
      ItemsRoundTrip(tasks);
    }
  }

  /** Different task sequences never render to the same display. */
  lemma ViewInjective(a: seq<Task>, b: seq<Task>)
    ensures View(a) == View(b) <==> a == b
  {
    if View(a) == View(b) {
      ViewRoundTrip(a);
      ViewRoundTrip(b);
    }
  }
}
