/**
 * The persistence layer of the task manager, kept abstract: one task list per
 * file path. Reading a path that has no file gives the empty list; writing a
 * path replaces everything stored there with the given list.
 */
module TaskStore {
  /** One to-do item, with the four fields every stored record carries. */
  datatype Task = Task(title: string, dueDate: string, createdAt: string, done: bool)

  class Storage {
    /** The content of every existing file; a path with no entry has no file. */
    var files: map<string, seq<Task>>

    constructor ()
      ensures files == map[]
    {
      files := map[];
    }

    /** `read_tasks`: the stored list, or the empty list when there is no file. */
    function Read(path: string): (tasks: seq<Task>)
      reads this
      ensures path !in files ==> tasks == []
      ensures path in files ==> tasks == files[path]
    {
      if path in files then files[path] else []
    }

    /** `write_tasks`: overwrite the whole file at `path` with `tasks`. */
    method Write(path: string, tasks: seq<Task>)
      modifies this
      ensures files == old(files)[path := tasks]
      ensures Read(path) == tasks
      ensures forall p :: p != path ==> Read(p) == old(Read(p))
    {
      files := files[path := tasks];
    }
  }
}
