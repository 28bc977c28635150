# Task lists, a student registry and a store cart, in Dafny

This project models three small record-keeping programs from a collection of
Python command-line exercises, and proves what each operation does to its
records.

- **Task manager** (`task_store.dfy`, `task_manager.dfy`). A project's tasks
  live in one file, `projects/<name>.json`. Every action loads the whole list,
  changes it in memory and writes the whole list back. The file layer is an
  abstract store, `TaskStore.Storage`: a map from path to task list. A missing
  path reads as the empty list, and a write replaces everything stored at that
  path. `add_task` appends a task that is not done and was created "today".
  `mark_done` and `delete_task` address a task by the 1-based number the user
  types. The user's number is an `Option<int>`, where `None` stands for input
  that `int()` rejects. Each of these operations is a method over the store.
  Its result and what it writes (or that it writes nothing) are given by a pure
  function (`MarkDoneEffect`, `DeleteEffect`), and the lemmas are about those
  functions. The clock and the date check are parameters: `today` is a string
  and `isValidDate` is a `string -> bool`.
- **Student registry** (`student_ops.dfy`). The module-global list of
  `{roll_no, name, grade}` records becomes the field of class `Registry`.
  Adding, regrading, finding and listing work as in the source. Lookups take the
  first record with the roll number; duplicate roll numbers are accepted.
- **Store cart** (`online_store.dfy`). The inventory is a sequence of entries,
  which keeps the insertion order of Python's dictionaries. A top-level value
  is either a category (a dictionary of products) or any other value, which the
  lookup skips. `get_price` scans the categories in order, and the products of
  each in order. `add_to_cart` appends a line only when the price it finds is
  truthy: a price of 0 is refused, with the same "not found" message as an
  unknown product. The quantity is taken as given, so it may be zero or
  negative. `calculate_total` is the integer sum of price times quantity.

Shared helpers: `wrappers.dfy` (`Option`) and `text.dfy` (`Decimal`, which
renders an `int` the way `str(int)` does).

Two points about the task manager as written:

- `add_task` does not check that the title is non-empty; `AddTask` accepts any
  title, the empty one included.
- `view_tasks` prints its numbered rows; `ViewTasks` returns them.

## Model

| member | source | states |
|---|---|---|
| TaskStore.Storage.Read | PROJECTS/Packages/task_manager/data/file_ops.py:4-11 | a path with no file reads as the empty list; otherwise the read gives the list stored there |
| TaskStore.Storage.Write | PROJECTS/Packages/task_manager/data/file_ops.py:13-15 | writing replaces the whole list at that path, reading it back gives exactly that list, and every other path reads as before |
| TaskManager.ProjectPath | PROJECTS/Packages/task_manager/core/manager.py:6 | the path is "projects/", then the project name, then ".json", and is 14 characters longer than the name |
| TaskManager.ProjectPathInjective | PROJECTS/Packages/task_manager/core/manager.py:6 | different project names give different path strings (not different files: see "Left out") |
| TaskManager.ResolvePosition | PROJECTS/Packages/task_manager/core/manager.py:62-63 | a typed number n selects index n-1 exactly when 1 <= n <= count; 0, negative and too-large numbers are out of range; non-integer input is reported as such |
| TaskManager.MarkedDone | PROJECTS/Packages/task_manager/core/manager.py:63-64 | the marked entry is done, with its title and both dates unchanged; the length and every other entry are unchanged |
| TaskManager.MarkedDoneIdempotent | PROJECTS/Packages/task_manager/core/manager.py:64-65 | marking twice equals marking once, and marking a task that is already done gives back the same list |
| TaskManager.RemovedAt | PROJECTS/Packages/task_manager/core/manager.py:79-80 | `del tasks[idx]`: the length drops by one, earlier entries stay put, later entries move down one place, and the removed entry is the only one lost (multiset) |
| TaskManager.MarkDoneEffect | PROJECTS/Packages/task_manager/core/manager.py:57-70 | the result is NoTasks exactly for an empty list, and InvalidInput exactly for non-integer input; a write happens exactly when 1 <= n <= length, and then it writes the list with entry n-1 marked done |
| TaskManager.DeleteEffect | PROJECTS/Packages/task_manager/core/manager.py:73-86 | the same outcome and no-write rules as for marking; a valid n writes the list without entry n-1 |
| TaskManager.MarkDoneTwice | PROJECTS/Packages/task_manager/core/manager.py:62-65 | marking the same number again, on the list the first marking wrote, writes that same list back |
| TaskManager.DeleteRemovesShownTask | PROJECTS/Packages/task_manager/core/manager.py:78-80 | a valid deletion leaves one task fewer, and the task removed is the one at the typed number |
| TaskManager.ListingOf | PROJECTS/Packages/task_manager/core/manager.py:48-54 | the listing is empty exactly when there are no tasks; otherwise it has one row per task, task i is shown as number i+1, and typing that number back selects task i |
| TaskManager.ViewTasks | PROJECTS/Packages/task_manager/core/manager.py:46-54 | the loop builds exactly ListingOf of the list stored at the path |
| TaskManager.AddTask | PROJECTS/Packages/task_manager/core/manager.py:35-43 | the store at the path becomes the old list plus one task with the given title and due date, today's creation date and done = false; no other path changes |
| TaskManager.MarkDone | PROJECTS/Packages/task_manager/core/manager.py:56-70 | returns and writes what MarkDoneEffect says for the freshly loaded list; with no tasks, a bad number or non-integer input the store is unchanged; marking an already-done task leaves the store unchanged |
| TaskManager.DeleteTask | PROJECTS/Packages/task_manager/core/manager.py:72-86 | returns and writes what DeleteEffect says for the freshly loaded list; on every error path the store is unchanged |
| TaskManager.Dispatch | PROJECTS/Packages/task_manager/core/manager.py:15-33 | choice 1 adds a task only when the due date passes the date check and otherwise writes nothing; choice 2 returns ListingOf the stored list and writes nothing; choices 3 and 4 return and write what MarkDoneEffect and DeleteEffect say; 5 goes back; any other choice is reported and writes nothing |
| TaskManager.AddMarkDeleteScenario | PROJECTS/Packages/task_manager/core/manager.py:35-86 | on a fresh project: after an add the view shows one task numbered 1 and not done; after marking number 1 it shows that task done; after deleting number 1 it shows no tasks |
| StudentOps.FirstIndex | LEVEL-3/PROJECTS/student_ops.py:23-24 | there is no index exactly when no record has the roll number; otherwise the index points at a matching record and no earlier record matches |
| StudentOps.Regraded | LEVEL-3/PROJECTS/student_ops.py:22-27 | only the grade of the first matching record changes; every roll number and name and every other record stay the same; with no match the list is unchanged |
| StudentOps.StudentLine | LEVEL-3/PROJECTS/student_ops.py:19 | a record's line is its roll number written as `str` writes it, " - ", its name, " - Grade: ", its grade and a newline: the roll number opens the line, the name follows three characters later, the grade sits just before the newline, and the length is exactly these parts plus 14 |
| StudentOps.Listing | LEVEL-3/PROJECTS/student_ops.py:14-20 | the text is "No students found." for an empty list, and otherwise starts with the "Student List:" header line |
| StudentOps.JoinConcat | LEVEL-3/PROJECTS/student_ops.py:17-19 | building the text over two parts of a list gives the text of the first part followed by that of the second |
| StudentOps.LinesConcat | LEVEL-3/PROJECTS/student_ops.py:18-19 | the lines of a list are the lines of its parts, in order |
| StudentOps.JoinPrefixStep | LEVEL-3/PROJECTS/student_ops.py:17-19 | one more loop round, after whatever text was already written, adds exactly the next record's line at the end |
| StudentOps.ListingInOrder | LEVEL-3/PROJECTS/student_ops.py:14-20 | the listing of a list followed by more records is its own listing followed by the new records' lines: one line per record, in insertion order |
| StudentOps.ListingEmptyExactly | LEVEL-3/PROJECTS/student_ops.py:15-17 | the text is "No students found." exactly when the list is empty |
| StudentOps.Registry.constructor | LEVEL-3/PROJECTS/student_ops.py:3 | the registry starts empty |
| StudentOps.Registry.AddStudent | LEVEL-3/PROJECTS/student_ops.py:5-12 | exactly one record is appended at the end and earlier records are unchanged; a repeated roll number is not rejected; the message names the student |
| StudentOps.Registry.ListStudents | LEVEL-3/PROJECTS/student_ops.py:14-20 | returns the header and one line per record in insertion order, or "No students found." exactly when there are none |
| StudentOps.Registry.UpdateGrade | LEVEL-3/PROJECTS/student_ops.py:22-27 | the list becomes the Regraded list; the message names the first matching student, or is "Student not found." with the list unchanged |
| StudentOps.Registry.FindStudent | LEVEL-3/PROJECTS/student_ops.py:29-33 | returns the first record with the roll number, or nothing (the "Student not found." string) exactly when none has it; changes nothing |
| StudentOps.DriverScenario | LEVEL-3/PROJECTS/main.py:5-16 | after adding 101, 102 and 103 and regrading 102 to "A+", roll number 103 is Charlie with grade "C", and Bob's record has grade "A+" |
| OnlineStore.PriceIn | LEVEL-3/PROJECTS/mini_online_store_simulation.py:32-34 | a category gives no price exactly when none of its products has the name |
| OnlineStore.PriceOf | LEVEL-3/PROJECTS/mini_online_store_simulation.py:29-35 | the lookup gives no price exactly when no dictionary category has a product of that name |
| OnlineStore.PriceInFirst | LEVEL-3/PROJECTS/mini_online_store_simulation.py:32-34 | within a category, the first product with the name gives the price |
| OnlineStore.PriceOfNone | LEVEL-3/PROJECTS/mini_online_store_simulation.py:29-35 | the lookup returns None exactly when no category offers a product of that name |
| OnlineStore.PriceOfFirstOffer | LEVEL-3/PROJECTS/mini_online_store_simulation.py:29-35 | the lookup returns the price of the first offer, scanning categories in order and then products in order |
| OnlineStore.PriceOfConcat | LEVEL-3/PROJECTS/mini_online_store_simulation.py:30-35 | over two inventories one after the other, the first one that knows the name decides the price |
| OnlineStore.OtherValuesSkipped | LEVEL-3/PROJECTS/mini_online_store_simulation.py:31-32 | a top-level value that is not a dictionary never contributes a price, even when its key is the name looked up |
| OnlineStore.StartingPrices | LEVEL-3/PROJECTS/mini_online_store_simulation.py:2-35 | in the starting inventory, Laptop costs 800 and Jeans 40; a category name and an unknown product have no price |
| OnlineStore.CartTotalAppend | LEVEL-3/PROJECTS/mini_online_store_simulation.py:55-56 | adding one cart line adds its price times its quantity to the total |
| OnlineStore.CartTotal | LEVEL-3/PROJECTS/mini_online_store_simulation.py:55-56 | the sum of price times quantity over the cart; with non-negative prices and quantities it is never below zero |
| OnlineStore.Shop.constructor | LEVEL-3/PROJECTS/mini_online_store_simulation.py:2-17 | the shop starts with the three-category inventory and an empty cart |
| OnlineStore.Shop.GetPrice | LEVEL-3/PROJECTS/mini_online_store_simulation.py:29-35 | returns the first matching price, or None exactly when no category offers the name; changes nothing |
| OnlineStore.Shop.AddToCart | LEVEL-3/PROJECTS/mini_online_store_simulation.py:38-44 | with a non-zero price, appends exactly one line with the name, the quantity as given and that price, and the total grows by price times quantity; otherwise the cart is unchanged and the message says "not found"; the inventory never changes |

## Left out

- JSON file I/O (`read_tasks`, `write_tasks`) is replaced by the abstract `Storage`. A file that fails to parse reads as an empty list in the source; the model has no parser, so it has no such file.
- Exceptions raised by `write_tasks` are not modelled: every write succeeds. In `mark_done` and `delete_task` the write sits inside the `try`, so its bare `except:` would turn a failure into the "Invalid input." message. In `add_task` nothing catches it (neither `handle_menu` nor `main.py` does), so a failed write, for example for a project name with a `/` whose directory does not exist, ends the program.
- TaskManager.ProjectPathInjective: path aliasing is not modelled. `Storage` treats each path string as its own file, while on disk "./alpha", "x/../alpha" and (on a case-insensitive file system) "Alpha" open the same file as "alpha"; `main.py` only strips whitespace from the name.
- `is_valid_date` and `today()` are not part of this model. They are parameters.
- The `while True` loop of `handle_menu` and the top-level menu in `main.py` are not modelled: they only read input and repeat. `Dispatch` models one round of the project menu.
- Printing and reading input are left out. `input().strip()` results and `int(...)` results are parameters. The messages of the task manager are kept as `Outcome` values rather than strings.
- TaskManager.ViewTasks: returns the numbered rows rather than the printed lines with their status marks.
- StudentOps.Registry.FindStudent: returns a copy of the record. In Python the caller gets the dictionary itself and could change the registry through it; that aliasing is not modelled.
- Student records are values. `update_grade` changes the dictionary in place, which the model states as a new list that differs only in that record.
- `roll_no` is an integer, as in the driver script. Other Python types for roll numbers are not modelled.
- Product prices are integers, and a category's products are flat. A dictionary nested inside a category, which `get_price` would return as a truthy "price", is not modelled.
- `display_inventory`, `greet_user` and the store's `main` loop only print or read input.
- `discount_coupon` and the rest of `checkout` are left out. They use floating point and prompts.
