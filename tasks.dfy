/**
 * The task record and the pure operations on task sequences: building a new
 * record from the form's four inputs, and flipping the completion flag of the
 * records with a given id (script.js, `handleAddTask` and `toggleTaskComplete`).
 */
module Tasks {
  import opened Text

  /** One civic action, with the six fields the list stores for it. */
  datatype Task = Task(
    id: string,
    title: string,
    why: string,
    domain: string,
    startDate: string,
    completed: bool)

  /** The ids of `tasks`, in order. */
  function Ids(tasks: seq<Task>): (r: seq<string>)
    ensures |r| == |tasks|
    ensures forall i :: 0 <= i < |tasks| ==> r[i] == tasks[i].id
  {
    seq(|tasks|, i requires 0 <= i < |tasks| => tasks[i].id)
  }

  /** No two records of `tasks` share an id. */
  predicate UniqueIds(tasks: seq<Task>) {
    forall i, j :: 0 <= i < j < |tasks| ==> tasks[i].id != tasks[j].id
  }

  /**
   * The record `handleAddTask` builds: the id comes from the caller, title, why
   * and domain are trimmed, the start date is kept as typed, and the task is not
   * yet completed.
   */
  function NewTask(id: string, title: string, why: string, domain: string, startDate: string): (t: Task)
    ensures t.id == id && t.startDate == startDate && !t.completed
    ensures IsTrimOf(t.title, title) && IsTrimOf(t.why, why) && IsTrimOf(t.domain, domain)
  {
    TrimSpec(title);
    TrimSpec(why);
    TrimSpec(domain);
    Task(id, Trim(title), Trim(why), Trim(domain), startDate, false)
  }

  /**
   * `tasks.map(task => task.id === taskId ? {...task, completed: !task.completed} : task)`:
   * same length and order; a record's flag changes exactly when its id is `taskId`,
   * and no other field of any record changes.
   */
  function Toggle(tasks: seq<Task>, taskId: string): (r: seq<Task>)
    ensures |r| == |tasks|
    ensures forall i :: 0 <= i < |tasks| ==>
      r[i].(completed := tasks[i].completed) == tasks[i] &&
      (r[i].completed != tasks[i].completed <==> tasks[i].id == taskId)
  {
    if tasks == [] then []
    else
      var t := tasks[0];
      [if t.id == taskId then t.(completed := !t.completed) else t] + Toggle(tasks[1..], taskId)
  }

  /** Toggling changes nothing exactly when no record carries the id. */
  lemma ToggleIdentityIff(tasks: seq<Task>, taskId: string)
    ensures Toggle(tasks, taskId) == tasks <==> taskId !in Ids(tasks)
  {
    var r := Toggle(tasks, taskId);
    if taskId in Ids(tasks) {
      var k :| 0 <= k < |tasks| && Ids(tasks)[k] == taskId;
      assert r[k] != tasks[k];
    } else {
      assert forall i :: 0 <= i < |tasks| ==> r[i] == tasks[i];
    }
  }

  /** Toggling the same id twice restores the original sequence. */
  lemma ToggleTwice(tasks: seq<Task>, taskId: string)
    ensures Toggle(Toggle(tasks, taskId), taskId) == tasks
  {
    var r := Toggle(Toggle(tasks, taskId), taskId);
    assert forall i :: 0 <= i < |tasks| ==> r[i] == tasks[i];
  }

  /** Toggling keeps every id in its place, so the multiset of ids too. */
  lemma ToggleKeepsIds(tasks: seq<Task>, taskId: string)
    ensures Ids(Toggle(tasks, taskId)) == Ids(tasks)
    ensures multiset(Ids(Toggle(tasks, taskId))) == multiset(Ids(tasks))
    ensures UniqueIds(Toggle(tasks, taskId)) <==> UniqueIds(tasks)
  {
    var r := Toggle(tasks, taskId);
    assert forall i :: 0 <= i < |tasks| ==> r[i].id == tasks[i].id;
  }

  /** When ids are unique, toggling an id that is present touches that one record only. */
  lemma ToggleTouchesOne(tasks: seq<Task>, taskId: string, k: nat)
    requires UniqueIds(tasks)
    requires k < |tasks| && tasks[k].id == taskId
    ensures Toggle(tasks, taskId) == tasks[k := tasks[k].(completed := !tasks[k].completed)]
  {
    var r := Toggle(tasks, taskId);
    var s := tasks[k := tasks[k].(completed := !tasks[k].completed)];
    forall i | 0 <= i < |tasks|
      ensures r[i] == s[i]
    {
      if i != k {
        assert tasks[i].id != taskId by {
          if i < k { assert tasks[i].id != tasks[k].id; } else { assert tasks[k].id != tasks[i].id; }
        }
      }
    }
  }

  /** Appending a record appends its id. */
  lemma IdsAppend(tasks: seq<Task>, t: Task)
    ensures Ids(tasks + [t]) == Ids(tasks) + [t.id]
  {
    var a, b := Ids(tasks + [t]), Ids(tasks) + [t.id];
    assert forall i :: 0 <= i < |a| ==> a[i] == b[i];
  }

  /** Appending a record whose id is fresh keeps the ids unique; a reused id breaks them. */
  lemma AppendUniqueIff(tasks: seq<Task>, t: Task)
    requires UniqueIds(tasks)
    ensures UniqueIds(tasks + [t]) <==> t.id !in Ids(tasks)
  {
    var s := tasks + [t];
    if t.id in Ids(tasks) {
      var k :| 0 <= k < |tasks| && Ids(tasks)[k] == t.id;
      assert s[k].id == s[|tasks|].id;
    }
  }
}
