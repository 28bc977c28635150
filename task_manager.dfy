/**
 * The task operations of one project: add, view, mark done and delete. Each
 * one loads the whole list from the store, changes it in memory and writes the
 * whole list back. Tasks are addressed by their 1-based position in the list
 * as loaded by that very operation.
 *
 * The user's typed task number is a parameter of type `Option<int>`: `None`
 * stands for text that `int(...)` rejects. The clock (`today()`) and the date
 * check (`is_valid_date`) are parameters too.
 */
module TaskManager {
  import opened Wrappers
  import opened TaskStore

  /** The path of the file that holds the tasks of `project`. */
  function ProjectPath(project: string): (path: string)
    ensures |path| == |project| + 14
    ensures path[..9] == "projects/" && path[9..|path| - 5] == project && path[|path| - 5..] == ".json"
  {
    "projects/" + project + ".json"
  }

  /**
   * Two different project names give two different path strings. (Whether two
   * such strings name the same file on disk is up to the file system.)
   */
  lemma ProjectPathInjective(p: string, q: string)
    requires ProjectPath(p) == ProjectPath(q)
    ensures p == q
  {
  }

  /** What a typed task number designates in a list of `count` tasks. */
  datatype Position = At(index: nat) | OutOfRange | NotANumber

  /**
   * The user's number `n` addresses index `n - 1`; only `1 <= n <= count` is
   * accepted, so 0 and negative numbers are out of range.
   */
  function ResolvePosition(number: Option<int>, count: nat): (p: Position)
    ensures p.NotANumber? <==> number.None?
    ensures p.At? <==> number.Some? && 1 <= number.value <= count
    ensures p.At? ==> p.index == number.value - 1 && p.index < count
  {
    match number
    case None => NotANumber
    case Some(n) =>
      var idx := n - 1;
      if 0 <= idx < count then At(idx) else OutOfRange
  }

  /** The list after `tasks[idx]['done'] = True`. */
  function MarkedDone(tasks: seq<Task>, idx: nat): (r: seq<Task>)
    requires idx < |tasks|
    ensures |r| == |tasks|
    ensures r[idx].done
    ensures r[idx].title == tasks[idx].title && r[idx].dueDate == tasks[idx].dueDate
    ensures r[idx].createdAt == tasks[idx].createdAt
    ensures forall j :: 0 <= j < |tasks| && j != idx ==> r[j] == tasks[j]
  {
    tasks[idx := tasks[idx].(done := true)]
  }

  /** Marking a task that is already done gives back the same list. */
  lemma MarkedDoneIdempotent(tasks: seq<Task>, idx: nat)
    requires idx < |tasks|
    ensures MarkedDone(MarkedDone(tasks, idx), idx) == MarkedDone(tasks, idx)
    ensures tasks[idx].done ==> MarkedDone(tasks, idx) == tasks
  {
  }

  /** The list after `del tasks[idx]`: later entries move down one place. */
  function RemovedAt(tasks: seq<Task>, idx: nat): (r: seq<Task>)
    requires idx < |tasks|
    ensures |r| == |tasks| - 1
    ensures forall j :: 0 <= j < idx ==> r[j] == tasks[j]
    ensures forall j :: idx <= j < |r| ==> r[j] == tasks[j + 1]
    ensures multiset(r) + multiset{tasks[idx]} == multiset(tasks)
  {
    assert tasks == tasks[..idx] + [tasks[idx]] + tasks[idx + 1..];
    tasks[..idx] + tasks[idx + 1..]
  }

  /** How a mark-done or delete request ended; each outcome has its own message. */
  datatype Outcome = NoTasks | Applied | InvalidNumber | InvalidInput

  /** What an operation reports, and the list it writes back (`None`: no write at all). */
  datatype Effect = Effect(outcome: Outcome, write: Option<seq<Task>>)

  /** The store after an operation with the given write has run. */
  function AfterWrite(files: map<string, seq<Task>>, path: string, write: Option<seq<Task>>): map<string, seq<Task>> {
    match write
    case None => files
    case Some(tasks) => files[path := tasks]
  }

  /** What `mark_done` reports and writes, given the loaded list and the typed number. */
  function MarkDoneEffect(tasks: seq<Task>, number: Option<int>): (e: Effect)
    ensures e.outcome == NoTasks <==> tasks == []
    ensures e.outcome == InvalidInput <==> tasks != [] && number.None?
    ensures e.outcome == Applied <==> tasks != [] && number.Some? && 1 <= number.value <= |tasks|
    ensures e.write.Some? <==> e.outcome == Applied
    ensures e.write.Some? ==> e.write.value == MarkedDone(tasks, number.value - 1)
  {
    if tasks == [] then Effect(NoTasks, None)
    else match ResolvePosition(number, |tasks|)
      case At(idx) => Effect(Applied, Some(MarkedDone(tasks, idx)))
      case OutOfRange => Effect(InvalidNumber, None)
      case NotANumber => Effect(InvalidInput, None)
  }

  /** What `delete_task` reports and writes, given the loaded list and the typed number. */
  function DeleteEffect(tasks: seq<Task>, number: Option<int>): (e: Effect)
    ensures e.outcome == NoTasks <==> tasks == []
    ensures e.outcome == InvalidInput <==> tasks != [] && number.None?
    ensures e.outcome == Applied <==> tasks != [] && number.Some? && 1 <= number.value <= |tasks|
    ensures e.write.Some? <==> e.outcome == Applied
    ensures e.write.Some? ==> e.write.value == RemovedAt(tasks, number.value - 1)
  {
    if tasks == [] then Effect(NoTasks, None)
    else match ResolvePosition(number, |tasks|)
      case At(idx) => Effect(Applied, Some(RemovedAt(tasks, idx)))
      case OutOfRange => Effect(InvalidNumber, None)
      case NotANumber => Effect(InvalidInput, None)
  }

  /**
   * Marking the same number a second time, on the list the first marking
   * wrote, writes that list again unchanged.
   */
  lemma MarkDoneTwice(tasks: seq<Task>, number: Option<int>)
    requires MarkDoneEffect(tasks, number).write.Some?
    ensures var once := MarkDoneEffect(tasks, number).write.value;
      MarkDoneEffect(once, number) == Effect(Applied, Some(once))
  {
    var once := MarkDoneEffect(tasks, number).write.value;
    MarkedDoneIdempotent(tasks, number.value - 1);
    assert MarkedDone(once, number.value - 1) == once;
  }

  /**
   * Deleting a valid position from a list of `n` tasks leaves `n - 1`, and the
   * deleted task is exactly the one shown under that number.
   */
  lemma DeleteRemovesShownTask(tasks: seq<Task>, number: Option<int>)
    requires DeleteEffect(tasks, number).write.Some?
    ensures var rest := DeleteEffect(tasks, number).write.value;
      |rest| == |tasks| - 1 && multiset(rest) + multiset{tasks[number.value - 1]} == multiset(tasks)
  {
  }

  /** One displayed line of `view_tasks`: its number and the task shown. */
  datatype Row = Row(number: nat, task: Task)

  /** What `view_tasks` shows: "no tasks found", or the numbered rows. */
  datatype Listing = Empty | Rows(rows: seq<Row>)

  /**
   * The listing of `tasks`: task `i` (from 0) is shown as number `i + 1`, and
   * that number, typed back, selects the same task again.
   */
  function ListingOf(tasks: seq<Task>): (listing: Listing)
    ensures listing.Empty? <==> tasks == []
    ensures listing.Rows? ==> |listing.rows| == |tasks|
    ensures listing.Rows? ==> forall i :: 0 <= i < |listing.rows| ==>
      listing.rows[i].number == i + 1 && listing.rows[i].task == tasks[i]
    ensures listing.Rows? ==> forall i :: 0 <= i < |listing.rows| ==>
      ResolvePosition(Some(listing.rows[i].number), |tasks|) == At(i)
  {
    if tasks == [] then Empty else Rows(seq(|tasks|, i requires 0 <= i < |tasks| => Row(i + 1, tasks[i])))
  }

  /** `view_tasks`: the numbered rows of the list stored at `path`. */
  method ViewTasks(store: Storage, path: string) returns (listing: Listing)
    ensures listing == ListingOf(store.Read(path))
  {
    var tasks := store.Read(path);
    if tasks == [] {
      return Empty;
    }
    var rows := [];
    for i := 0 to |tasks|
      invariant |rows| == i
      invariant forall k :: 0 <= k < i ==> rows[k] == Row(k + 1, tasks[k])
    {
      rows := rows + [Row(i + 1, tasks[i])];
    }
    listing := Rows(rows);
  }

  /** `add_task`: append a new, not yet done task created today, then write the list back. */
  method AddTask(store: Storage, path: string, title: string, dueDate: string, today: string)
    modifies store
    ensures store.files == old(store.files)[path := old(store.Read(path)) + [Task(title, dueDate, today, false)]]
    ensures store.Read(path)[..|old(store.Read(path))|] == old(store.Read(path))
  {
    var tasks := store.Read(path);
    tasks := tasks + [Task(title, dueDate, today, false)];
    store.Write(path, tasks);
  }

  /** `mark_done`: set `done` on the task at the typed position, if there is one. */
  method MarkDone(store: Storage, path: string, number: Option<int>) returns (outcome: Outcome)
    modifies store
    ensures var e := MarkDoneEffect(old(store.Read(path)), number);
      outcome == e.outcome && store.files == AfterWrite(old(store.files), path, e.write)
    ensures outcome != Applied ==> store.files == old(store.files)
    ensures outcome == Applied && old(store.Read(path))[number.value - 1].done ==>
      store.files == old(store.files)
  {
    var tasks := store.Read(path);
    var _ := ViewTasks(store, path);
    if tasks == [] {
      return NoTasks;
    }
    match number {
      case None =>
        outcome := InvalidInput;
      case Some(n) =>
        var idx := n - 1;
        if 0 <= idx < |tasks| {
          tasks := tasks[idx := tasks[idx].(done := true)];
          if old(store.Read(path))[idx].done {
            assert tasks == old(store.Read(path));
            assert old(store.files)[path := tasks] == old(store.files);
          }
          store.Write(path, tasks);
          outcome := Applied;
        } else {
          outcome := InvalidNumber;
        }
    }
  }

  /** `delete_task`: remove the task at the typed position, if there is one. */
  method DeleteTask(store: Storage, path: string, number: Option<int>) returns (outcome: Outcome)
    modifies store
    ensures var e := DeleteEffect(old(store.Read(path)), number);
      outcome == e.outcome && store.files == AfterWrite(old(store.files), path, e.write)
    ensures outcome != Applied ==> store.files == old(store.files)
  {
    var tasks := store.Read(path);
    var _ := ViewTasks(store, path);
    if tasks == [] {
      return NoTasks;
    }
    match number {
      case None =>
        outcome := InvalidInput;
      case Some(n) =>
        var idx := n - 1;
        if 0 <= idx < |tasks| {
          tasks := tasks[..idx] + tasks[idx + 1..];
          store.Write(path, tasks);
          outcome := Applied;
        } else {
          outcome := InvalidNumber;
        }
    }
  }

  /** What one round of the project menu did. */
  datatype MenuResult =
    | Added
    | InvalidDate
    | Viewed(listing: Listing)
    | Marked(outcome: Outcome)
    | Deleted(outcome: Outcome)
    | Back
    | InvalidChoice

  /**
   * One round of `handle_menu`: dispatch on the typed choice. A task is added
   * only when its due date passes the date check; otherwise nothing is written.
   */
  method Dispatch(store: Storage, path: string, choice: string, title: string, due: string,
                  number: Option<int>, today: string, isValidDate: string -> bool)
    returns (result: MenuResult)
    modifies store
    ensures choice == "1" && isValidDate(due) ==>
      result == Added &&
      store.files == old(store.files)[path := old(store.Read(path)) + [Task(title, due, today, false)]]
    ensures choice == "1" && !isValidDate(due) ==> result == InvalidDate && store.files == old(store.files)
    ensures choice == "2" ==> result == Viewed(ListingOf(old(store.Read(path)))) && store.files == old(store.files)
    ensures choice == "3" ==> var e := MarkDoneEffect(old(store.Read(path)), number);
      result == Marked(e.outcome) && store.files == AfterWrite(old(store.files), path, e.write)
    ensures choice == "4" ==> var e := DeleteEffect(old(store.Read(path)), number);
      result == Deleted(e.outcome) && store.files == AfterWrite(old(store.files), path, e.write)
    ensures choice == "5" <==> result == Back
    ensures choice !in {"1", "2", "3", "4", "5"} <==> result == InvalidChoice
    ensures result in {Back, InvalidChoice, InvalidDate} ==> store.files == old(store.files)
  {
    if choice == "1" {
      if !isValidDate(due) {
        return InvalidDate;
      }
      AddTask(store, path, title, due, today);
      result := Added;
    } else if choice == "2" {
      var listing := ViewTasks(store, path);
      result := Viewed(listing);
    } else if choice == "3" {
      var outcome := MarkDone(store, path, number);
      result := Marked(outcome);
    } else if choice == "4" {
      var outcome := DeleteTask(store, path, number);
      result := Deleted(outcome);
    } else if choice == "5" {
      result := Back;
    } else {
      result := InvalidChoice;
    }
  }

  /**
   * A whole session on a fresh project: add one task, mark it done, delete
   * it; each view in between shows the list as the previous step left it.
   */
  method AddMarkDeleteScenario(today: string) returns (first: Listing, second: Listing, third: Listing)
    ensures first == Rows([Row(1, Task("Write spec", "2025-01-10", today, false))])
    ensures second == Rows([Row(1, Task("Write spec", "2025-01-10", today, true))])
    ensures third == Empty
  {
    var store := new Storage();
    var path := ProjectPath("alpha");
    AddTask(store, path, "Write spec", "2025-01-10", today);
    first := ViewTasks(store, path);
    var marked := MarkDone(store, path, Some(1));
    second := ViewTasks(store, path);
    var deleted := DeleteTask(store, path, Some(1));
    third := ViewTasks(store, path);
  }
}
