/**
 * The page's state and its three handlers (script.js): the value persisted under
 * the storage key "civicLedgerTasks", the children of the task list container,
 * and the read-modify-write-render cycles of adding and toggling a task.
 */
module Ledger {
  import opened Wrappers
  import opened Text
  import opened Tasks
  import opened Render

  class TaskLedger {
    /** The persisted task sequence; `None` while nothing has been saved under the key. */
    var stored: Option<seq<Task>>
    /** The list container's children, in display order. */
    var displayed: seq<Item>

    /** The sequence `loadTasks` reads. */
    ghost function Persisted(): seq<Task>
      reads this
    {
      if stored.Some? then stored.value else []
    }

    /** The display shows exactly the persisted sequence. */
    ghost predicate InSync()
      reads this
    {
      displayed == View(Persisted())
    }

    /** A page whose storage already holds `saved` and whose container holds `shown`. */
    constructor (saved: Option<seq<Task>>, shown: seq<Item>)
      ensures stored == saved && displayed == shown
    {
      stored := saved;
      displayed := shown;
    }

    /** Reads the stored sequence, or the empty one when nothing has been stored. */
    method LoadTasks() returns (tasks: seq<Task>)
      ensures stored.None? ==> tasks == []
      ensures stored.Some? ==> tasks == stored.value
      ensures tasks == Persisted()
    {
      tasks := if stored.Some? then stored.value else [];
    }

    /** Overwrites the stored value; the display is untouched. */
    method SaveTasks(tasks: seq<Task>)
      modifies this`stored
      ensures stored == Some(tasks)
      ensures Persisted() == tasks
    {
      stored := Some(tasks);
    }

    /**
     * Clears the container, then shows the placeholder for an empty sequence or
     * one item per task. The result does not depend on what was shown before,
     * so rendering the same sequence twice gives the same display.
     */
    method RenderTasks(tasks: seq<Task>)
      modifies this`displayed
      ensures displayed == View(tasks)
    {
      displayed := [];
      if |tasks| == 0 {
        displayed := displayed + [Placeholder(EmptyText)];
        return;
      }
      var i := 0;
      while i < |tasks|
        invariant 0 <= i <= |tasks|
        invariant displayed == Items(tasks[..i])
      {
        assert tasks[..i + 1] == tasks[..i] + [tasks[i]];
        ItemsAppend(tasks[..i], tasks[i]);
        displayed := displayed + [ItemOf(tasks[i])];
        i := i + 1;
      }
      assert tasks[..i] == tasks;
    }

    /** The initial `renderTasks(loadTasks())` of the page. */
    method Initialize()
      modifies this`displayed
      ensures stored == old(stored)
      ensures InSync()
    {
      var tasks := LoadTasks();
      RenderTasks(tasks);
    }

    /**
     * `toggleTaskComplete(taskId)`: loads, flips the flag of the records whose id
     * is `taskId`, saves and renders the new sequence.
     */
    method ToggleTaskComplete(taskId: string)
      modifies this`stored, this`displayed
      ensures stored.Some?
      ensures Persisted() == Toggle(old(Persisted()), taskId)
      ensures InSync()
      ensures Ids(Persisted()) == Ids(old(Persisted()))
      ensures UniqueIds(Persisted()) <==> UniqueIds(old(Persisted()))
      ensures taskId !in Ids(old(Persisted())) ==> Persisted() == old(Persisted())
    {
      var tasks := LoadTasks();
      var updatedTasks := Toggle(tasks, taskId);
      ToggleKeepsIds(tasks, taskId);
      ToggleIdentityIff(tasks, taskId);
      SaveTasks(updatedTasks);
      RenderTasks(updatedTasks);
    }

    /**
     * The store part of `handleAddTask`: builds the record from the four form
     * inputs and `id` (the fresh UUID), appends it to the loaded sequence, saves
     * and renders. The stored sequence grows by exactly that one record, at the
     * end; ids stay unique when they were and `id` is fresh.
     */
    method HandleAddTask(id: string, title: string, why: string, domain: string, startDate: string)
      modifies this`stored, this`displayed
      ensures stored.Some?
      ensures |Persisted()| == |old(Persisted())| + 1
      ensures Persisted()[..|old(Persisted())|] == old(Persisted())
      ensures Persisted()[|Persisted()| - 1] == NewTask(id, title, why, domain, startDate)
      ensures Ids(Persisted()) == Ids(old(Persisted())) + [id]
      ensures InSync()
      ensures UniqueIds(old(Persisted())) && id !in Ids(old(Persisted())) ==> UniqueIds(Persisted())
    {
      var newTask := NewTask(id, title, why, domain, startDate);
      var tasks := LoadTasks();
      ghost var before := tasks;
      tasks := tasks + [newTask];
      SaveTasks(tasks);
      RenderTasks(tasks);
      assert tasks[..|before|] == before;
      IdsAppend(before, newTask);
      if UniqueIds(before) {
        AppendUniqueIff(before, newTask);
      }
    }
  }

  /** Rendering one more task appends its item. */
  lemma {:induction false} ItemsAppend(tasks: seq<Task>, t: Task)
    ensures Items(tasks + [t]) == Items(tasks) + [ItemOf(t)]
  {
    var a, b := Items(tasks + [t]), Items(tasks) + [ItemOf(t)];
    assert |a| == |b|;
    forall i | 0 <= i < |a| ensures a[i] == b[i] {
      if i < |tasks| { assert (tasks + [t])[i] == tasks[i]; }
    }
  }
}
