/**
 * The documented walk-through of the page: first visit with empty storage, adding
 * "Attend town hall", toggling it, and the storage round trip.
 */
module Scenarios {
  import opened Wrappers
  import opened Text
  import opened Tasks
  import opened Render
  import opened Ledger

  /**
   * Adding a task whose text inputs carry no surrounding whitespace, then toggling
   * it: the stored record holds the inputs as typed, and its item is unchecked
   * with class "task-item" before the toggle, checked with "task-item completed" after.
   */
  lemma AddThenToggleItems(id: string, title: string, why: string, domain: string, startDate: string)
    requires Trimmed(title) && Trimmed(why) && Trimmed(domain)
    ensures NewTask(id, title, why, domain, startDate) == Task(id, title, why, domain, startDate, false)
    ensures View([NewTask(id, title, why, domain, startDate)])
      == [TaskItem(ItemClass, title, WhyPrefix + why, DomainPrefix + domain, StartDatePrefix + startDate,
                   false, ToggleLabel, id)]
    ensures View(Toggle([NewTask(id, title, why, domain, startDate)], id))
      == [TaskItem(CompletedItemClass, title, WhyPrefix + why, DomainPrefix + domain, StartDatePrefix + startDate,
                   true, ToggleLabel, id)]
  {
    assert [] + title + [] == title && [] + why + [] == why && [] + domain + [] == domain;
    TrimOfDecomposition([], title, []);
    TrimOfDecomposition([], why, []);
    TrimOfDecomposition([], domain, []);
    var t := Task(id, title, why, domain, startDate, false);
    assert View([t]) == [ItemOf(t)];
    var u := t.(completed := true);
    assert Toggle([t], id) == [u];
    assert View([u]) == [ItemOf(u)];
  }

  /**
   * A first visit, one added task and its toggling, driven through the page's
   * handlers (for instance "Attend town hall", "Local budget vote",
   * "Local Government", "2024-05-01").
   */
  method FirstVisit(id: string, title: string, why: string, domain: string, startDate: string)
    requires Trimmed(title) && Trimmed(why) && Trimmed(domain)
  {
    var page := new TaskLedger(None, []);
    page.Initialize();
    assert page.displayed == [Placeholder("No tasks yet. Add your first civic action above.")];
    var loaded := page.LoadTasks();
    assert loaded == [];

    AddThenToggleItems(id, title, why, domain, startDate);
    var t := Task(id, title, why, domain, startDate, false);
    page.HandleAddTask(id, title, why, domain, startDate);
    assert page.Persisted() == [t];
    assert !page.displayed[0].checked && page.displayed[0].className == "task-item";

    page.ToggleTaskComplete(id);
    assert page.Persisted() == [t.(completed := true)];
    assert page.displayed[0].checked && page.displayed[0].className == "task-item completed";

    page.ToggleTaskComplete(id);
    ToggleTwice([t], id);
    assert page.Persisted() == [t];
  }

  /** The town-hall example of the walk-through. */
  method TownHall(id: string)
  {
    FirstVisit(id, "Attend town hall", "Local budget vote", "Local Government", "2024-05-01");
  }

  /** Saving then loading gives back what was saved; rendering twice shows the same thing. */
  method SaveLoadRender(page: TaskLedger, tasks: seq<Task>)
    modifies page
  {
    page.SaveTasks(tasks);
    var loaded := page.LoadTasks();
    assert loaded == tasks;
    page.RenderTasks(loaded);
    ghost var once := page.displayed;
    page.RenderTasks(loaded);
    assert page.displayed == once;
  }
}
