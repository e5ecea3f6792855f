# Board manager core in Dafny

A model of the core of a small kanban application: boards, each created
with four columns (To Do, In Progress, Done, Paused), and tasks that live in
one column, can be blocked, unblocked and moved between columns. The model
covers:

- the `Task` state machine (`block`, `unblock`, `move`);
- the two storage back ends behind the repository interfaces: the
  in-memory maps with their id counters, and the `;`-separated flat files
  (`boards.csv`, `columns.csv`, `tasks.csv`) with their helpers, including
  the cascade that deleting a board triggers through the registered
  deletion listeners;
- the gateways, which turn an empty `findById` into an
  `EntityNotFoundException`;
- the ten use cases: create, update, delete and view a complete board;
  create, update, move, block, unblock and delete a task;
- `BoardMapper.toDto`, the board summary with its task count and its
  completion percentage.

## How the model is built

Each Java class of the core has its own module:

- `domain.dfy` holds the entities, `ColumnType` and the task transitions.
- `memory_store.dfy`, `memory_boards.dfy`, `memory_columns.dfy` and
  `memory_tasks.dfy` hold the in-memory repositories. Each is a map from
  id to entity plus the `nextId` counter.
- `file_utils.dfy`, `file_boards.dfy`, `file_columns.dfy`,
  `file_tasks.dfy` and `file_database.dfy` hold the file repositories. A
  file is a sequence of lines whose first line is the header. Each line is
  what `BufferedReader.readLine` returns, so no line holds `'\n'` or
  `'\r'` (`FileUtils.LinesOk`). Rows are `String.split(";")` results, with
  its trailing-empty-field rule. A field is written back unchanged only when
  it holds no `;`, `'\n'` or `'\r'` (`JavaText.FieldOk`). `getNextId` is the
  largest parsable id plus one.
- `java_text.dfy` holds the Java library behaviour the stores rely on:
  `long` wrap-around, `Long.parseLong`, `String.valueOf`, `split`, `join`,
  `equalsIgnoreCase` and `Boolean.valueOf`.
- `gateways.dfy`, `board_use_cases.dfy` and `task_use_cases.dfy` hold the
  use cases. A use case is a pure function over the repositories'
  answers (`Repos`). It returns its result, or the exception it throws as
  an error value, together with the log of repository calls it made, in
  order. The log is what "nothing is saved after a failed check" and "the
  column is never looked up" are stated over.
- `memory_backend.dfy` runs the use cases against the in-memory stores.
  The repositories' answers come from the current maps. Replaying the
  writes of the call log gives the next state. The lemmas there state each
  use case's effect on the stores, and that the effect keeps every entity
  under its own id.
- `board_mapper.dfy` models `toDto`.

The clock (`LocalDate.now()`, `LocalDateTime.now()`) is a parameter
(`today`, `now`).


## Model

| member | source | states |
|---|---|---|
| JavaText.LongSucc | src/main/java/com/example/management/infrastructure/persistence/memory/InMemoryTaskRepository.java:19 | the counter's `nextId++` on a Java `long`: one more below the largest long, the smallest long after it |
| JavaText.LongSuccIsModular | src/main/java/com/example/management/infrastructure/persistence/file/FileUtils.java:51 | that successor is addition of one modulo 2^64 in the signed range, as Java's `maxId + 1` and `nextId++` wrap |
| JavaText.IntRoundTrip | src/main/java/com/example/management/infrastructure/persistence/file/InFileTaskRepository.java:51-57 | every integer written in decimal parses back to itself |
| JavaText.ParseLong | src/main/java/com/example/management/infrastructure/persistence/file/FileUtils.java:42 | `Long.parseLong` accepts exactly the ASCII decimal texts (optional sign) whose value fits a long, and yields that value |
| JavaText.LongRoundTrip | src/main/java/com/example/management/infrastructure/persistence/file/InFileBoardRepository.java:53 | `String.valueOf` of an id parses back to the same id with `Long.parseLong` |
| JavaText.IdText | src/main/java/com/example/management/infrastructure/persistence/file/InFileColumnRepository.java:41 | a column line's id text reads back as the id, and the text of a missing id (`null`) is not a number |
| JavaText.EqualsIgnoreCaseIsLowerEquality | src/main/java/com/example/management/infrastructure/persistence/file/InFileBoardRepository.java:88 | `equalsIgnoreCase` holds exactly when the lower-cased texts are equal, so it is an equivalence |
| JavaText.BoolRoundTrip | src/main/java/com/example/management/infrastructure/persistence/file/InFileTaskRepository.java:55 | `Boolean.valueOf` of `String.valueOf(blocked)` gives back the flag |
| JavaText.Split | src/main/java/com/example/management/infrastructure/persistence/file/FileUtils.java:37 | `split(";")`: pieces carry no delimiter, a text without delimiter is its own single piece, trailing empty pieces are dropped |
| JavaText.SplitJoin | src/main/java/com/example/management/infrastructure/persistence/file/InFileBoardRepository.java:64 | a row joined with `;` and split again is the same row, for rows `split` can produce |
| JavaText.SplitIsStable | src/main/java/com/example/management/infrastructure/persistence/file/FileUtils.java:62 | every row `split` produces survives a join and a re-split unchanged |
| Domain.ColumnTypeValueOf | src/main/java/com/example/management/infrastructure/persistence/file/InFileColumnRepository.java:63 | `ColumnType.valueOf` succeeds only on a constant's name and returns that constant |
| Domain.ColumnTypeRoundTrip | src/main/java/com/example/management/core/enums/ColumnType.java:3-8 | `valueOf(name())` gives back each of the four constants, and no name contains the delimiter |
| Domain.DateCodecRoundTrip | src/main/java/com/example/management/infrastructure/persistence/file/InFileTaskRepository.java:54-56 | due dates and creation times written to a task line parse back to the same values |
| Domain.NewBoard | src/main/java/com/example/management/core/domain/Board.java:13-17 | `new Board(id, title)` keeps id and title and stamps the clock reading |
| Domain.NewTask | src/main/java/com/example/management/core/domain/Task.java:23-31 | the task constructor keeps every given field, starts unblocked and stamps the clock reading |
| Domain.TasksOnBoard | src/main/java/com/example/management/infrastructure/persistence/memory/InMemoryTaskRepository.java:51-55 | the board filter keeps exactly the tasks whose column's board has the id, and no more tasks than it was given |
| Domain.TasksOnBoardInOrder | src/main/java/com/example/management/infrastructure/persistence/memory/InMemoryTaskRepository.java:51-55 | the board filter keeps order and multiplicity: filtering a concatenation concatenates the filtered parts, and a single task is kept exactly when its board matches |
| Domain.NoneOnBoard | src/main/java/com/example/management/infrastructure/persistence/file/InFileTaskRepository.java:127-130 | the board filter is empty when no task's column is on the board |
| Domain.TasksInColumn | src/main/java/com/example/management/infrastructure/persistence/memory/InMemoryTaskRepository.java:58-62 | the column filter keeps exactly the tasks whose column has the id, and no more tasks than it was given |
| Domain.TasksInColumnInOrder | src/main/java/com/example/management/infrastructure/persistence/memory/InMemoryTaskRepository.java:58-62 | the column filter keeps order and multiplicity: filtering a concatenation concatenates the filtered parts, and a single task is kept exactly when its column matches |
| Domain.ColumnsOnBoard | src/main/java/com/example/management/infrastructure/persistence/memory/InMemoryColumnRepository.java:33-37 | the board filter keeps exactly the columns whose board has the id, and no more columns than it was given |
| Domain.ColumnsOnBoardInOrder | src/main/java/com/example/management/infrastructure/persistence/memory/InMemoryColumnRepository.java:33-37 | the board filter keeps order and multiplicity: filtering a concatenation concatenates the filtered parts, and a single column is kept exactly when its board matches |
| Domain.Block | src/main/java/com/example/management/core/domain/Task.java:33-37 | `block()` leaves the task blocked and changes nothing else |
| Domain.Unblock | src/main/java/com/example/management/core/domain/Task.java:39-43 | `unblock()` leaves the task unblocked and changes nothing else |
| Domain.Move | src/main/java/com/example/management/core/domain/Task.java:45-48 | `move` fails with the blocked-task error exactly when the task is blocked; otherwise only the column changes |
| Domain.BlockIdempotent | src/main/java/com/example/management/core/domain/Task.java:33-37 | blocking twice is blocking once; a blocked task is left as it is |
| Domain.UnblockIdempotent | src/main/java/com/example/management/core/domain/Task.java:39-43 | unblocking twice is unblocking once; an unblocked task is left as it is |
| Domain.UnblockUndoesBlock | src/main/java/com/example/management/core/domain/Task.java:33-43 | unblocking after blocking restores an unblocked task exactly |
| Domain.BlockedTaskCannotMove | src/main/java/com/example/management/core/domain/Task.java:45-48 | after `block()` every move fails and the column stays; after `unblock()` every move lands in the target |
| Domain.NewTaskIsMovable | src/main/java/com/example/management/core/domain/Task.java:23-31 | a freshly constructed task is unblocked, so it can be moved |
| FileUtils.ReadAllRows | src/main/java/com/example/management/infrastructure/persistence/file/FileUtils.java:54-66 | `readAllRows` skips the header and yields one row per remaining line |
| FileUtils.ReadAppend | src/main/java/com/example/management/infrastructure/persistence/file/InFileColumnRepository.java:43-45 | appending a line adds exactly its split as the last row |
| FileUtils.ReadRewrite | src/main/java/com/example/management/infrastructure/persistence/file/InFileBoardRepository.java:60-66 | a file rewritten as the header plus the joined rows reads back as exactly those rows |
| FileUtils.ReadRewriteAppend | src/main/java/com/example/management/infrastructure/persistence/file/InFileBoardRepository.java:58-66 | rewriting the kept rows plus a new row reads back as those rows followed by the new one |
| FileUtils.ReadAppendRow | src/main/java/com/example/management/infrastructure/persistence/file/InFileColumnRepository.java:41-45 | appending a joined row reads back as the old rows plus that row |
| FileUtils.FirstIndex | src/main/java/com/example/management/infrastructure/persistence/file/InFileBoardRepository.java:121-124 | `filter(...).findFirst()`: the first row whose field equals the value, none before it matching |
| FileUtils.FilterByField | src/main/java/com/example/management/infrastructure/persistence/file/InFileBoardRepository.java:138-141 | the row filter keeps exactly the rows whose field matches (or, negated, does not), each drawn from the input |
| FileUtils.FilterByFieldAppend | src/main/java/com/example/management/infrastructure/persistence/file/InFileBoardRepository.java:138-141 | the row filter keeps file order and multiplicity: filtering a concatenation concatenates the filtered parts, and a single row is kept exactly when its field test passes |
| FileUtils.FilterKeepsOthers | src/main/java/com/example/management/infrastructure/persistence/file/InFileBoardRepository.java:139 | after dropping the rows of one id, another id is still found exactly when it was before |
| FileUtils.FilterDropsAll | src/main/java/com/example/management/infrastructure/persistence/file/InFileBoardRepository.java:139 | after dropping the rows of an id, no row with that id is found |
| FileUtils.CountWhere | src/main/java/com/example/management/infrastructure/persistence/file/InFileBoardRepository.java:77 | the count is zero exactly when no row's field equals the value |
| FileUtils.DropValues | src/main/java/com/example/management/infrastructure/persistence/file/InFileTaskRepository.java:186 | deleting a list of ids keeps exactly the rows whose id is not in the list |
| FileUtils.GetNextId | src/main/java/com/example/management/infrastructure/persistence/file/FileUtils.java:29-52 | `getNextId` is the largest id plus one, at least 1; it wraps to the smallest long after the largest |
| FileUtils.NextIdBounds | src/main/java/com/example/management/infrastructure/persistence/file/FileUtils.java:29-52 | the next id lies above every id in the file and, unless 1, follows one of them |
| FileUtils.NextIdFollowsMax | src/main/java/com/example/management/infrastructure/persistence/file/FileUtils.java:51 | without wrap-around the next id is the maximum plus one |
| FileUtils.NextIdIgnoresHeader | src/main/java/com/example/management/infrastructure/persistence/file/FileUtils.java:33 | the header line never affects the next id |
| FileUtils.NextIdSkipsNonNumeric | src/main/java/com/example/management/infrastructure/persistence/file/FileUtils.java:45-47 | a line whose first field is not a number does not change the next id |
| FileUtils.NextIdIsFresh | src/main/java/com/example/management/infrastructure/persistence/file/FileUtils.java:29-52 | with numeric ids and no wrap-around, no row already holds the next id |
| FileBoards.KeptRows | src/main/java/com/example/management/infrastructure/persistence/file/InFileBoardRepository.java:41-50 | a board without id keeps every row; a board with id drops exactly its old rows |
| FileBoards.Save | src/main/java/com/example/management/infrastructure/persistence/file/InFileBoardRepository.java:39-72 | `save` gives a new board the next id and keeps a given id; the file starts with the header |
| FileBoards.GetAll | src/main/java/com/example/management/infrastructure/persistence/file/InFileBoardRepository.java:106-117 | `getAll` lists one board per row, the same boards, sorted by id |
| FileBoards.FindById | src/main/java/com/example/management/infrastructure/persistence/file/InFileBoardRepository.java:119-130 | `findById` finds exactly the stored ids, built from the first row with that id |
| FileBoards.RemoveRows | src/main/java/com/example/management/infrastructure/persistence/file/InFileBoardRepository.java:138-148 | the rewrite after delete drops that id and keeps every other id |
| FileBoards.SaveReadsBack | src/main/java/com/example/management/infrastructure/persistence/file/InFileBoardRepository.java:39-72 | after `save` the file reads back as the kept rows followed by the board's row |
| FileBoards.SaveNewAppends | src/main/java/com/example/management/infrastructure/persistence/file/InFileBoardRepository.java:43-58 | saving a board without id appends one row with the next id and keeps all others |
| FileBoards.SaveExistingReplaces | src/main/java/com/example/management/infrastructure/persistence/file/InFileBoardRepository.java:46-58 | saving a board with id leaves exactly one row of that id and every other id's count unchanged |
| FileBoards.SaveThenFind | src/main/java/com/example/management/infrastructure/persistence/file/InFileBoardRepository.java:39-130 | a saved board is found again under its id, with the stored title |
| FileBoards.SaveThenTitleTaken | src/main/java/com/example/management/infrastructure/persistence/file/InFileBoardRepository.java:85-93 | after saving, the title is taken (ignoring case) and the id exists |
| FileBoards.ExistsByTitleIgnoresCase | src/main/java/com/example/management/infrastructure/persistence/file/InFileBoardRepository.java:85-93 | the title check cannot tell titles that differ only in letter case |
| FileBoards.TitleCheckIgnoresOwnRow | src/main/java/com/example/management/infrastructure/persistence/file/InFileBoardRepository.java:95-104 | `existsByTitleAndIdNot` implies `existsByTitle`; a title taken only by the board itself means the board exists |
| FileColumns.RowOfStable | src/main/java/com/example/management/infrastructure/persistence/file/InFileColumnRepository.java:41 | a column line splits back into its id, its board's id and its type's name |
| FileColumns.Save | src/main/java/com/example/management/infrastructure/persistence/file/InFileColumnRepository.java:35-50 | column `save` appends exactly one line, giving a new column the next id |
| FileColumns.ColumnOfRow | src/main/java/com/example/management/infrastructure/persistence/file/InFileColumnRepository.java:61-64 | a row becomes a column with the row's id, the board found by the row's board id, and the parsed type |
| FileColumns.ColumnsOfAppend | src/main/java/com/example/management/infrastructure/persistence/file/InFileColumnRepository.java:78-84 | the row-to-column mapping distributes over concatenation |
| FileColumns.FindById | src/main/java/com/example/management/infrastructure/persistence/file/InFileColumnRepository.java:52-73 | `findById` finds exactly the ids of the file, built from the first row with that id |
| FileColumns.BoardIdOf | src/main/java/com/example/management/infrastructure/persistence/file/InFileColumnRepository.java:61-63 | the board id of a column row is the id of the board `findById` resolves |
| FileColumns.FindAllByBoardId | src/main/java/com/example/management/infrastructure/persistence/file/InFileColumnRepository.java:75-90 | `findAllByBoardId` lists one column per row carrying the board id, all on that board, and the list equals reading every row as a column and keeping the board's columns in file order |
| FileColumns.FilterThenRead | src/main/java/com/example/management/infrastructure/persistence/file/InFileColumnRepository.java:75-90 | keeping the rows whose board id field matches and then reading them gives the same columns, in the same order, as reading every row and then keeping the board's columns |
| FileColumns.FindAllListsEveryRow | src/main/java/com/example/management/infrastructure/persistence/file/InFileColumnRepository.java:78-84 | every row on the board shows up among the listed columns |
| FileColumns.DeleteByBoardId | src/main/java/com/example/management/infrastructure/persistence/file/InFileColumnRepository.java:98-117 | the cascade step keeps exactly the rows of other boards |
| FileColumns.SaveAppendsRow | src/main/java/com/example/management/infrastructure/persistence/file/InFileColumnRepository.java:35-50 | after `save` the rows are the old rows plus the new column's row, one more with its id |
| FileColumns.SaveThenFindAll | src/main/java/com/example/management/infrastructure/persistence/file/InFileColumnRepository.java:35-90 | after saving a column of a stored board, the board's list ends with that column |
| FileColumns.DeleteByBoardIdEmptiesBoard | src/main/java/com/example/management/infrastructure/persistence/file/InFileColumnRepository.java:93-117 | after the cascade step the deleted board lists no column and every other board lists the same columns |
| FileColumns.DeleteKeepsOtherColumn | src/main/java/com/example/management/infrastructure/persistence/file/InFileColumnRepository.java:103 | a column of another board survives the cascade step with its board |
| FileColumns.DeleteDropsBoardColumn | src/main/java/com/example/management/infrastructure/persistence/file/InFileColumnRepository.java:103 | a column all of whose rows are on the deleted board is gone |
| FileTasks.RowOfStable | src/main/java/com/example/management/infrastructure/persistence/file/InFileTaskRepository.java:50-57 | a task line splits back into id, title, description, due date, blocked flag, creation time and column id |
| FileTasks.KeptRows | src/main/java/com/example/management/infrastructure/persistence/file/InFileTaskRepository.java:40-48 | a task without id keeps every row; a task with id drops exactly its old rows |
| FileTasks.Save | src/main/java/com/example/management/infrastructure/persistence/file/InFileTaskRepository.java:38-74 | `save` gives a new task the next id and keeps a given id |
| FileTasks.TaskOfRow | src/main/java/com/example/management/infrastructure/persistence/file/InFileTaskRepository.java:106-118 | a row becomes a task with the row's fields and the column `findById` resolves for its column id |
| FileTasks.FindAll | src/main/java/com/example/management/infrastructure/persistence/file/InFileTaskRepository.java:102-125 | `findAll` builds one task per row, in file order |
| FileTasks.FindById | src/main/java/com/example/management/infrastructure/persistence/file/InFileTaskRepository.java:76-100 | `findById` finds exactly the stored ids, built from the first row with that id |
| FileTasks.DeleteById | src/main/java/com/example/management/infrastructure/persistence/file/InFileTaskRepository.java:159-176 | `deleteById` drops that id and keeps every other id |
| FileTasks.DeleteAll | src/main/java/com/example/management/infrastructure/persistence/file/InFileTaskRepository.java:184-187 | deleting a list of ids one by one drops exactly the rows with those ids |
| FileTasks.SaveReadsBack | src/main/java/com/example/management/infrastructure/persistence/file/InFileTaskRepository.java:38-74 | after `save` the file reads back as the kept rows followed by the task's row |
| FileTasks.SaveKeepsRefs | src/main/java/com/example/management/infrastructure/persistence/file/InFileTaskRepository.java:38-74 | saving a task whose column exists keeps every row's column resolvable |
| FileTasks.SaveThenFind | src/main/java/com/example/management/infrastructure/persistence/file/InFileTaskRepository.java:38-100 | a saved task is found again under its id, with its column resolved from the column store |
| FileTasks.DeleteAllKeeps | src/main/java/com/example/management/infrastructure/persistence/file/InFileTaskRepository.java:184-187 | the rows left are exactly the old rows whose id is not deleted |
| FileTasks.RowListedForBoard | src/main/java/com/example/management/infrastructure/persistence/file/InFileTaskRepository.java:127-130 | every task row is listed on the board its column belongs to |
| FileTasks.OnBoardDeletedClearsBoard | src/main/java/com/example/management/infrastructure/persistence/file/InFileTaskRepository.java:178-187 | after the cascade step no task row sits on the deleted board, and every other row stays |
| FileTasks.ColumnTasksOnBoard | src/main/java/com/example/management/infrastructure/persistence/file/InFileTaskRepository.java:127-135 | every task of a column is among the tasks of that column's board |
| FileTasks.FindAllByBoardId | src/main/java/com/example/management/infrastructure/persistence/file/InFileTaskRepository.java:127-130 | `findAllByBoardId` lists exactly the tasks read from the file whose column's board has the id, each with an id |
| FileTasks.FindAllByColumnId | src/main/java/com/example/management/infrastructure/persistence/file/InFileTaskRepository.java:132-135 | `findAllByColumnId` lists exactly the tasks read from the file whose column has the id, each with an id and in that column |
| FileTasks.TitleCheckIgnoresOwnTask | src/main/java/com/example/management/infrastructure/persistence/file/InFileTaskRepository.java:149-157 | the title check without the own id implies the plain one; a title taken only by the task itself means it exists |
| FileTasks.ListedTaskExists | src/main/java/com/example/management/infrastructure/persistence/file/InFileTaskRepository.java:127-147 | every task listed for a board exists by id |
| FileDatabase.DeleteBoard | src/main/java/com/example/management/infrastructure/persistence/file/InFileBoardRepository.java:132-153 | after board delete (the listeners first, then the board's own rows) the board no longer exists and the board file stays readable |
| FileDatabase.CascadeDeleteConsistent | src/main/java/com/example/management/infrastructure/config/AppContext.java:61-63 | with the registered order (task store, then column store) a consistent database stays consistent, the board is gone, other boards stay, and no column or task is left on it |
| FileDatabase.ColumnsAfterCascade | src/main/java/com/example/management/infrastructure/persistence/file/InFileColumnRepository.java:98-117 | after the cascade every remaining column still names a stored board |
| FileDatabase.TasksAfterCascade | src/main/java/com/example/management/infrastructure/persistence/file/InFileTaskRepository.java:184-187 | after the task step every remaining task's column survives the column step, and none is on the deleted board |
| FileDatabase.NoTaskOnBoard | src/main/java/com/example/management/infrastructure/persistence/file/InFileTaskRepository.java:127-130 | with no task row on a board, the board's task list is empty |
| FileDatabase.ColumnsFirstFails | src/main/java/com/example/management/infrastructure/config/AppContext.java:61 | the reverse order breaks: once the column step has run, a task of the board can no longer resolve its column |
| MemoryStore.Allocate | src/main/java/com/example/management/infrastructure/persistence/memory/InMemoryBoardRepository.java:15-17 | a given id is kept with the counter unchanged; a missing id takes the counter, which advances |
| MemoryStore.Put | src/main/java/com/example/management/infrastructure/persistence/memory/InMemoryBoardRepository.java:18 | `storage.put` stores the value under its key and changes no other key |
| MemoryStore.Remove | src/main/java/com/example/management/infrastructure/persistence/memory/InMemoryBoardRepository.java:53-55 | `storage.remove` drops that key and changes no other key |
| MemoryStore.CounterStaysAhead | src/main/java/com/example/management/infrastructure/persistence/memory/InMemoryBoardRepository.java:14-20 | saving without id uses a key not yet stored, and the counter stays above every key |
| MemoryStore.PutKeepsKeyed | src/main/java/com/example/management/infrastructure/persistence/memory/InMemoryBoardRepository.java:18 | putting an entity under its own id keeps every entity under its own id |
| MemoryStore.FindFirst | src/main/java/com/example/management/infrastructure/persistence/memory/InMemoryBoardRepository.java:46-50 | the value scan finds only an entity with that id |
| MemoryStore.FindFirstIsLookup | src/main/java/com/example/management/infrastructure/persistence/memory/InMemoryBoardRepository.java:46-50 | with every entity under its own id, the value scans are map lookups |
| MemoryStore.KeyedValuesDistinct | src/main/java/com/example/management/infrastructure/persistence/memory/InMemoryBoardRepository.java:41-43 | the stored values are listed without repeats |
| MemoryBoards.Save | src/main/java/com/example/management/infrastructure/persistence/memory/InMemoryBoardRepository.java:14-20 | `save` assigns the counter to a board without id, stores it under its id, touches no other key, returns it |
| MemoryBoards.GetAll | src/main/java/com/example/management/infrastructure/persistence/memory/InMemoryBoardRepository.java:41-43 | `getAll` lists every stored board once, sorted by id |
| MemoryBoards.FindById | src/main/java/com/example/management/infrastructure/persistence/memory/InMemoryBoardRepository.java:46-50 | `findById` returns only a stored board with that id |
| MemoryBoards.DeleteById | src/main/java/com/example/management/infrastructure/persistence/memory/InMemoryBoardRepository.java:53-55 | `deleteById` keeps the counter and every board under its own id |
| MemoryBoards.FindByIdIsLookup | src/main/java/com/example/management/infrastructure/persistence/memory/InMemoryBoardRepository.java:23-50 | `findById` and `existsById` agree with the map lookup |
| MemoryBoards.SaveThenFind | src/main/java/com/example/management/infrastructure/persistence/memory/InMemoryBoardRepository.java:14-50 | a saved board is found under its id and no other lookup changes |
| MemoryBoards.DeleteRemovesOnlyThatBoard | src/main/java/com/example/management/infrastructure/persistence/memory/InMemoryBoardRepository.java:53-55 | after delete the id is gone and every other lookup is unchanged |
| MemoryBoards.GetAllListsEveryBoard | src/main/java/com/example/management/infrastructure/persistence/memory/InMemoryBoardRepository.java:41-43 | `getAll` contains exactly the stored boards, with strictly increasing ids |
| MemoryBoards.TitleCheckIgnoresOwnBoard | src/main/java/com/example/management/infrastructure/persistence/memory/InMemoryBoardRepository.java:29-38 | `existsByTitleAndIdNot` implies `existsByTitle`; a title taken only by the board itself is its own |
| MemoryBoards.StoredTitleTaken | src/main/java/com/example/management/infrastructure/persistence/memory/InMemoryBoardRepository.java:29-32 | a stored board's title is taken |
| MemoryBoards.ExistsByTitleIgnoresCase | src/main/java/com/example/management/infrastructure/persistence/memory/InMemoryBoardRepository.java:29-32 | the title check cannot tell titles that differ only in letter case |
| MemoryBoards.FreshIdsConsecutive | src/main/java/com/example/management/infrastructure/persistence/memory/InMemoryBoardRepository.java:14-20 | a run of saves hands out consecutive ids from the counter |
| MemoryColumns.Save | src/main/java/com/example/management/infrastructure/persistence/memory/InMemoryColumnRepository.java:18-23 | `save` assigns the counter to a column without id and stores it under its id, touching no other key |
| MemoryColumns.FindById | src/main/java/com/example/management/infrastructure/persistence/memory/InMemoryColumnRepository.java:26-30 | `findById` returns only a stored column with that id |
| MemoryColumns.FindAllByBoardId | src/main/java/com/example/management/infrastructure/persistence/memory/InMemoryColumnRepository.java:33-37 | `findAllByBoardId` lists exactly the stored columns of the board |
| MemoryColumns.FindByIdIsLookup | src/main/java/com/example/management/infrastructure/persistence/memory/InMemoryColumnRepository.java:26-30 | `findById` agrees with the map lookup |
| MemoryColumns.SaveThenFind | src/main/java/com/example/management/infrastructure/persistence/memory/InMemoryColumnRepository.java:18-30 | a saved column is found under its id and no other lookup changes |
| MemoryColumns.FreshIdsConsecutive | src/main/java/com/example/management/infrastructure/persistence/memory/InMemoryColumnRepository.java:18-23 | a run of saves hands out consecutive ids from the counter |
| MemoryTasks.Save | src/main/java/com/example/management/infrastructure/persistence/memory/InMemoryTaskRepository.java:17-23 | `save` assigns the counter to a task without id, stores it under its id, touches no other key, returns it |
| MemoryTasks.FindById | src/main/java/com/example/management/infrastructure/persistence/memory/InMemoryTaskRepository.java:26-30 | `findById` returns only a stored task with that id |
| MemoryTasks.FindAllByBoardId | src/main/java/com/example/management/infrastructure/persistence/memory/InMemoryTaskRepository.java:51-55 | `findAllByBoardId` lists exactly the stored tasks whose column is on the board |
| MemoryTasks.FindAllByColumnId | src/main/java/com/example/management/infrastructure/persistence/memory/InMemoryTaskRepository.java:58-62 | `findAllByColumnId` lists exactly the stored tasks of the column |
| MemoryTasks.DeleteById | src/main/java/com/example/management/infrastructure/persistence/memory/InMemoryTaskRepository.java:65-67 | `deleteById` keeps the counter and every task under its own id |
| MemoryTasks.FindByIdIsLookup | src/main/java/com/example/management/infrastructure/persistence/memory/InMemoryTaskRepository.java:26-36 | `findById` and `existsById` agree with the map lookup |
| MemoryTasks.SaveThenFind | src/main/java/com/example/management/infrastructure/persistence/memory/InMemoryTaskRepository.java:17-30 | a saved task is found under its id and no other lookup changes |
| MemoryTasks.DeleteRemovesOnlyThatTask | src/main/java/com/example/management/infrastructure/persistence/memory/InMemoryTaskRepository.java:65-67 | after delete the id is gone and every other lookup is unchanged |
| MemoryTasks.TitleChecksScopedToBoard | src/main/java/com/example/management/infrastructure/persistence/memory/InMemoryTaskRepository.java:39-48 | both title checks look only at tasks on the given board, ignoring case, the second skipping the id |
| MemoryTasks.TitleCheckIgnoresOwnTask | src/main/java/com/example/management/infrastructure/persistence/memory/InMemoryTaskRepository.java:45-48 | a title taken on the board only by the task itself does not count against it |
| MemoryTasks.FreshIdsConsecutive | src/main/java/com/example/management/infrastructure/persistence/memory/InMemoryTaskRepository.java:17-23 | a run of saves hands out consecutive ids from the counter |
| Gateways.NotFoundMessagesCarryId | src/main/java/com/example/management/infrastructure/gateway/BoardRepositoryGateway.java:46 | each not-found message carries its id (it parses back), different ids give different messages, and the board/column form never equals the task form |
| Gateways.FindBoard | src/main/java/com/example/management/infrastructure/gateway/BoardRepositoryGateway.java:44-47 | board `findById` returns the found board, or the not-found error with the id in quotes |
| Gateways.FindColumn | src/main/java/com/example/management/infrastructure/gateway/ColumnRepositoryGateway.java:24-27 | column `findById` returns the found column, or the not-found error with the id in quotes |
| Gateways.FindTask | src/main/java/com/example/management/infrastructure/gateway/TaskRepositoryGateway.java:25-28 | task `findById` returns the found task, or the 'with ID' not-found error |
| BoardUseCases.ColumnSaves | src/main/java/com/example/management/core/usecase/board/CreateBoardUseCaseImpl.java:34-39 | one column save per type, in declaration order, each column without id on the board |
| BoardUseCases.CreateBoard | src/main/java/com/example/management/core/usecase/board/CreateBoardUseCaseImpl.java:21-39 | create fails with the duplicate-title error exactly when the title is taken, then writes nothing; otherwise saves the board, then one column per type, and returns the saved board |
| BoardUseCases.UpdateBoard | src/main/java/com/example/management/core/usecase/board/UpdateBoardUseCaseImpl.java:17-27 | a missing board fails first with no title check; a clashing title fails with no write; otherwise the board is saved once with the new title |
| BoardUseCases.DeleteBoard | src/main/java/com/example/management/core/usecase/board/DeleteBoardUseCaseImpl.java:15-19 | delete fails exactly when the board does not exist, with no write; otherwise exactly one delete of that id |
| BoardUseCases.TaskOutputsOf | src/main/java/com/example/management/core/usecase/board/CompleteBoardUseCaseImpl.java:34-41 | one task output per task, carrying its fields |
| BoardUseCases.ColumnOutputsOf | src/main/java/com/example/management/core/usecase/board/CompleteBoardUseCaseImpl.java:32-43 | one column output per column, with its id, type and its tasks |
| BoardUseCases.CompleteBoard | src/main/java/com/example/management/core/usecase/board/CompleteBoardUseCaseImpl.java:28-49 | complete board never writes; fails exactly when the board is missing; otherwise the output mirrors the board, its columns in order and each column's tasks |
| BoardUseCases.CompleteBoardQueriesOnlyWhatItNeeds | src/main/java/com/example/management/core/usecase/board/CompleteBoardUseCaseImpl.java:29-33 | a missing board queries no column or task; a board without columns queries no task |
| BoardUseCases.UpdateBoardMissingWins | src/main/java/com/example/management/core/usecase/board/UpdateBoardUseCaseImpl.java:18-19 | for a missing board the not-found error wins and the title is never checked |
| TaskUseCases.CreateTask | src/main/java/com/example/management/core/usecase/task/CreateTaskUseCaseImpl.java:24-47 | column lookup, then due date, then title in the column's board decide in that order; each failure writes nothing; success saves one new unblocked task in that column |
| TaskUseCases.CreateTurnsOnTitle | src/main/java/com/example/management/core/usecase/task/CreateTaskUseCaseImpl.java:44-47 | once the column is found and the date is fine, create succeeds exactly when the title is free on the board |
| TaskUseCases.UpdateTask | src/main/java/com/example/management/core/usecase/task/UpdateTaskUseCaseImpl.java:22-43 | task lookup, then due date, then title on its board (besides itself) decide; success saves the task with the new title, description and due date and nothing else changed |
| TaskUseCases.UpdateTurnsOnTitle | src/main/java/com/example/management/core/usecase/task/UpdateTaskUseCaseImpl.java:40-43 | once the task is found and the date is fine, update succeeds exactly when no other task on the board has the title |
| TaskUseCases.MoveTask | src/main/java/com/example/management/core/usecase/task/MoveTaskUseCaseImpl.java:20-30 | task, then column lookup; same column refused, then blocked refused; success saves the task in the new column |
| TaskUseCases.BlockTask | src/main/java/com/example/management/core/usecase/task/BlockTaskUseCaseImpl.java:15-21 | block fails only for a missing task; an unblocked task is saved blocked, a blocked one causes no write |
| TaskUseCases.UnblockTask | src/main/java/com/example/management/core/usecase/task/UnblockTaskUseCaseImpl.java:15-21 | unblock fails only for a missing task; a blocked task is saved unblocked, an unblocked one causes no write |
| TaskUseCases.DeleteTask | src/main/java/com/example/management/core/usecase/task/DeleteTaskUseCaseImpl.java:15-19 | delete fails exactly when the task does not exist, with no write; otherwise exactly one delete |
| TaskUseCases.MoveChecksColumnBeforeBlocked | src/main/java/com/example/management/core/usecase/task/MoveTaskUseCaseImpl.java:24-28 | for a blocked task, the same-column refusal comes before the blocked refusal, and nothing is written |
| TaskUseCases.MoveUnknownTaskSkipsColumn | src/main/java/com/example/management/core/usecase/task/MoveTaskUseCaseImpl.java:21-22 | an unknown task is reported without looking up the column |
| TaskUseCases.DueDateCheckedBeforeTitle | src/main/java/com/example/management/core/usecase/task/CreateTaskUseCaseImpl.java:26-41 | a past due date fails before the title is checked; a due date of today is accepted |
| MemoryBackend.CreateBoardOnMemory | src/main/java/com/example/management/core/usecase/board/CreateBoardUseCaseImpl.java:21-39 | on the in-memory stores create succeeds exactly for a free title, stores the board under the counter's id with its four columns, and a second create of the title fails |
| MemoryBackend.CreateBoardKeepsTitlesUnique | src/main/java/com/example/management/core/usecase/board/CreateBoardUseCaseImpl.java:29-32 | create keeps board titles unique ignoring case |
| MemoryBackend.UpdateBoardOnMemory | src/main/java/com/example/management/core/usecase/board/UpdateBoardUseCaseImpl.java:17-22 | update succeeds exactly for a stored board and a free title, replacing only that board's title; a failure leaves the stores as they were |
| MemoryBackend.UpdateBoardKeepsTitlesUnique | src/main/java/com/example/management/core/usecase/board/UpdateBoardUseCaseImpl.java:24-27 | update keeps board titles unique ignoring case |
| MemoryBackend.RenameToOwnTitleChangesNothing | src/main/java/com/example/management/core/usecase/board/UpdateBoardUseCaseImpl.java:17-22 | renaming a board to its own title succeeds and leaves the stores as they were |
| MemoryBackend.DeleteBoardOnMemory | src/main/java/com/example/management/core/usecase/board/DeleteBoardUseCaseImpl.java:15-19 | delete succeeds exactly for a stored board and removes only that key |
| MemoryBackend.CreateTaskOnMemory | src/main/java/com/example/management/core/usecase/task/CreateTaskUseCaseImpl.java:24-37 | create succeeds exactly for a stored column, a due date not in the past and a title free on the board, adding one task under the counter's id |
| MemoryBackend.CreateTaskTwiceFails | src/main/java/com/example/management/core/usecase/task/CreateTaskUseCaseImpl.java:44-47 | creating the same task twice fails the second time with the duplicate-title error |
| MemoryBackend.UpdateTaskOnMemory | src/main/java/com/example/management/core/usecase/task/UpdateTaskUseCaseImpl.java:22-33 | update succeeds exactly for a stored task, a due date not in the past and a title free besides itself, replacing only title, description and due date |
| MemoryBackend.MoveTaskOnMemory | src/main/java/com/example/management/core/usecase/task/MoveTaskUseCaseImpl.java:20-30 | move succeeds exactly for a stored, unblocked task and a stored column other than its own, changing only the task's column |
| MemoryBackend.BlockTaskOnMemory | src/main/java/com/example/management/core/usecase/task/BlockTaskUseCaseImpl.java:15-21 | block succeeds exactly for a stored task and sets only its flag |
| MemoryBackend.UnblockTaskOnMemory | src/main/java/com/example/management/core/usecase/task/UnblockTaskUseCaseImpl.java:15-21 | unblock succeeds exactly for a stored task and clears only its flag |
| MemoryBackend.BlockThenUnblockRestores | src/main/java/com/example/management/core/usecase/task/BlockTaskUseCaseImpl.java:15-21 | blocking an already blocked task changes nothing, and unblocking after blocking restores the stores exactly |
| MemoryBackend.DeleteTaskOnMemory | src/main/java/com/example/management/core/usecase/task/DeleteTaskUseCaseImpl.java:15-19 | delete succeeds exactly for a stored task and removes only that key |
| BoardMapper.ToDto | src/main/java/com/example/management/infrastructure/mapper/BoardMapper.java:17-35 | the response carries the board's id and title and a progress between 0 and 100 |
| BoardMapper.BoardToDto | src/main/java/com/example/management/infrastructure/mapper/BoardMapper.java:17-18 | the mapper fails with the not-found error exactly for a missing board and otherwise summarises every listed column |
| BoardMapper.CompletedAtMostTotal | src/main/java/com/example/management/infrastructure/mapper/BoardMapper.java:23-30 | the tasks in DONE columns are among all tasks |
| BoardMapper.AllDoneIffCountsAgree | src/main/java/com/example/management/infrastructure/mapper/BoardMapper.java:27-29 | the two counts agree exactly when no task sits outside a DONE column |
| BoardMapper.ProgressRange | src/main/java/com/example/management/infrastructure/mapper/BoardMapper.java:32 | progress lies in 0..100, is 100 exactly when there are tasks and all are completed, and is 0 when none is |
| BoardMapper.ToDtoCounts | src/main/java/com/example/management/infrastructure/mapper/BoardMapper.java:20-34 | the task count is every task of every column, and progress is 100 exactly when the board has tasks and all are DONE |
| BoardMapper.SwapKeepsCounts | src/main/java/com/example/management/infrastructure/mapper/BoardMapper.java:23-30 | reordering columns changes neither count |

## Left out

- Swing panels, the servlet, the JDBC repositories and `AppContext` wiring are outside the core; only the listener order registered in `AppContext` is modelled (as `FileDatabase.CascadeOrder`).
- `IOException` paths (printing a message and returning an empty list, `false` or `Optional.empty()`) are not modelled: file reads and writes always succeed in the model, and `initFile` is replaced by files that already hold their header line.
- Malformed file contents (a line whose id or board id does not parse, a missing field, an unknown column type, a reference to a missing board or column) make the readers and finders throw; the model states the well-formed shape as a precondition (`FileOk`, `RefsOk`, `StoresOk`, `Ready`) instead of modelling the exception. `getNextId` is the exception to this: it catches the `NumberFormatException` and skips the line, and the model follows it (`FileUtils.NextIdSkipsNonNumeric`).
- Dates and timestamps are written as decimal day and tick numbers, not in ISO text; the write/read round trip is what the stores rely on and is proved for this encoding.
- `equalsIgnoreCase` is modelled on ASCII letters only; Unicode case folding is not modelled.
- `JavaText.ParseLong`: accepts only the ASCII digits `0`-`9` after an optional sign. `Long.parseLong` also accepts the other Unicode decimal digits (Arabic-Indic, full-width and so on) through `Character.digit`, so an id written with those parses in Java but not in the model; `FileUtils.NextIdSkipsNonNumeric` and every `HasLong` guard inherit this.
- HashMap iteration order is modelled as ascending key order; with every entity stored under its own id the lookups and checks do not depend on it, but the order of `findAllByBoardId` lists does.
- Java object identity and aliasing are not modelled: entities are values, so renaming a stored board does not change the board copy held inside its columns.
- `TaskUseCases.MoveTask`: `MoveTaskUseCaseImpl` compares two `Column` objects with `equals`, which `Column` does not override, so it compares references; the model compares column ids. With the file store every `findById` builds fresh `Column` objects, so in Java the same-column check never fires there: moving a task to its own column saves it unchanged, or raises the blocked-task error if the task is blocked. The model raises the same-column error in that case instead.
- The repository methods the gateways only delegate to (`save`, `existsBy…`, `getAll…`, `deleteById`) are called directly by the use-case model; only the `findById` mapping to `EntityNotFoundException` is modelled as a separate step.
- `BoardMapper.ToDto`: the percentage is `completed * 100 / total` in unbounded integers; the source computes it in `float` and truncates, which can differ for very large counts, and its `int` counters can overflow; neither is modelled.
- `BoardMapper.BoardToDto`: requires the board to have an id and its listed columns to have ids, where the source would throw a `NullPointerException`; a `null` task list or `null` column type never arises in the model, so the mapper's null guards are not exercised.
- `BoardUseCases.CompleteBoard`: requires every listed column to have an id; the source would throw a `NullPointerException` unboxing a `null` id.
- `TaskUseCases.CreateTask`: requires a found column to belong to a board with an id, and `TaskUseCases.UpdateTask` a found task's column to do so; the source would throw a `NullPointerException` there.
- `FileColumns.FindById`: requires every row of the column file to name a stored board, although the source only resolves the board of the row it returns.
- `FileDatabase.DeleteBoard`: its contract states only that the board is gone; what the cascade does to columns and tasks is stated by `FileDatabase.CascadeDeleteConsistent`.
- `MemoryBackend.CreateBoardOnMemory`: requires the column counter to be at least four short of the largest `long`, so that the four new columns get consecutive ids; the wrap-around case is not stated.
- `MemoryBoards.FreshIdsConsecutive`, `MemoryColumns.FreshIdsConsecutive` and `MemoryTasks.FreshIdsConsecutive`: require the counter not to wrap during the run; the wrap itself is modelled by `JavaText.LongSucc`.
- Console output (`System.out.println`) is not modelled.
