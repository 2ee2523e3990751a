/**
  The task store of src/stores/task.ts. Its two refs, `tasks` and
  `initialTasks`, hold JavaScript arrays, which are heap objects here
  (`TaskArray`): `setTask` makes both refs point at one array, so an
  in-place `push` or slot write through `tasks` also changes the filter
  snapshot until `removeTask` or `applyFilters` installs a fresh array.
 */
module TaskStore {
  import opened Wrappers
  import opened TaskTypes
  import opened TaskFilter

  /** A JavaScript array of tasks. */
  class TaskArray {
    var items: seq<Task>

    constructor (items: seq<Task>)
      ensures this.items == items
    {
      this.items := items;
    }

    /** `array.push(t)`. */
    method Push(t: Task)
      modifies this
      ensures items == old(items) + [t]
    {
      items := items + [t];
    }

    /** `array[i] = t`. */
    method Put(i: nat, t: Task)
      requires i < |items|
      modifies this
      ensures items == old(items)[i := t]
    {
      items := items[i := t];
    }

    /** `array.sort(by due date)`: a stable sort, in place. */
    method SortByDueDate(descending: bool)
      modifies this
      ensures items == SortByDue(old(items), descending)
    {
      items := SortByDue(items, descending);
    }
  }

  class Store {
    /** The visible list (`getAllTasks`). */
    var tasks: TaskArray
    /** The filter snapshot. */
    var initialTasks: TaskArray

    /** Both refs hold the same array. */
    predicate Aliased()
      reads this
    {
      tasks == initialTasks
    }

    /** Two separate empty arrays. */
    constructor ()
      ensures fresh(tasks) && fresh(initialTasks) && !Aliased()
      ensures tasks.items == [] && initialTasks.items == []
    {
      tasks := new TaskArray([]);
      initialTasks := new TaskArray([]);
    }

    /** `setTask(data)`: the list and the snapshot both become `data`, the same array. */
    method SetTask(data: TaskArray)
      modifies this
      ensures tasks == data && initialTasks == data && Aliased()
      ensures tasks.items == old(data.items)
    {
      tasks := data;
      initialTasks := data;
    }

    /** `addTask(t)`: pushes onto the visible array, and so onto the snapshot while they alias. */
    method AddTask(t: Task)
      modifies tasks
      ensures tasks == old(tasks) && initialTasks == old(initialTasks)
      ensures tasks.items == old(tasks.items) + [t]
      ensures initialTasks.items == if Aliased() then old(tasks.items) + [t] else old(initialTasks.items)
    {
      tasks.Push(t);
    }

    /** `updateTask(p)`: merges into the first task whose id prints like `p.id`, in place. */
    method UpdateTask(p: PartialTask)
      modifies tasks
      ensures tasks == old(tasks) && initialTasks == old(initialTasks)
      ensures tasks.items == Updated(old(tasks.items), p)
      ensures initialTasks.items == if Aliased() then Updated(old(tasks.items), p) else old(initialTasks.items)
    {
      var index := FindByString(tasks.items, p.id);
      if index != -1 {
        tasks.Put(index, Merge(tasks.items[index], p));
      }
    }

    /**
      `removeTask(id)`: when a strictly equal id is present, a new array
      without its first occurrence replaces the list (ending any alias);
      otherwise nothing happens.
     */
    method RemoveTask(id: TaskId)
      modifies this
      ensures initialTasks == old(initialTasks) && initialTasks.items == old(initialTasks.items)
      ensures tasks.items == Removed(old(tasks.items), id)
      ensures FindStrict(old(tasks.items), id) == -1 ==> tasks == old(tasks)
      ensures FindStrict(old(tasks.items), id) != -1 ==> fresh(tasks) && !Aliased()
    {
      var index := FindStrict(tasks.items, id);
      if index != -1 {
        tasks := new TaskArray(tasks.items[..index] + tasks.items[index + 1..]);
      }
    }

    /**
      `applyFilters(status, priority, sortBy)`: a fresh array holding the
      filtered snapshot, sorted in place when `sortBy` names a due-date
      order, becomes the list. The snapshot is only read.
     */
    method ApplyFilters(status: Option<string>, priority: Option<string>, sortBy: Option<string>)
      modifies this
      ensures initialTasks == old(initialTasks) && initialTasks.items == old(initialTasks.items)
      ensures fresh(tasks) && !Aliased()
      ensures tasks.items == View(initialTasks.items, status, priority, sortBy)
    {
      var filtered := new TaskArray(FilterTasks(initialTasks.items, status, priority));
      if Given(sortBy) {
        if sortBy.value == "dueDate" {
          filtered.SortByDueDate(false);
        } else if sortBy.value == "dueDateDesc" {
          filtered.SortByDueDate(true);
        }
      }
      tasks := filtered;
    }
  }

  /** Two identical `applyFilters` calls in a row leave the same list. */
  method ApplyFiltersTwice(store: Store, status: Option<string>, priority: Option<string>, sortBy: Option<string>)
    returns (first: seq<Task>)
    modifies store
    ensures first == View(old(store.initialTasks.items), status, priority, sortBy)
    ensures store.tasks.items == first
    ensures store.initialTasks.items == old(store.initialTasks.items)
  {
    store.ApplyFilters(status, priority, sortBy);
    first := store.tasks.items;
    store.ApplyFilters(status, priority, sortBy);
  }

  /**
    After `setTask(data)`, an added task reaches the snapshot through the
    shared array; after `applyFilters` has installed a fresh array, the next
    added task reaches only the visible list.
   */
  method AddBeforeAndAfterFilter(store: Store, data: TaskArray, t: Task, u: Task)
    modifies store, data
    ensures store.initialTasks == data
    ensures data.items == old(data.items) + [t]
    ensures store.tasks.items == old(data.items) + [t, u]
  {
    store.SetTask(data);
    store.AddTask(t);
    store.ApplyFilters(None, None, None);
    FilterIdentity(data.items, None, None);
    store.AddTask(u);
  }
}
