/** `BoardMapper.toDto`: the board list's summary of one board, built from
    the complete view of the board — how many tasks it holds over all its
    columns, and the share of them that sit in DONE columns, as a whole
    percentage. */
module BoardMapper {
  import opened Wrappers
  import opened JavaText
  import opened Domain
  import opened Gateways
  import BoardUseCases

  /** `BoardResponse`: the board's id and title, its task count and its
      progress in percent. */
  datatype BoardResponse = BoardResponse(id: Option<Long>, title: string, taskCount: nat, progress: int)

  /** The tasks of all the columns together. */
  function TaskCount(columns: seq<BoardUseCases.ColumnOutput>): nat
    decreases |columns|
  {
    if |columns| == 0 then 0 else |columns[0].tasks| + TaskCount(columns[1..])
  }

  /** The tasks of the DONE columns only. */
  function CompletedCount(columns: seq<BoardUseCases.ColumnOutput>): nat
    decreases |columns|
  {
    if |columns| == 0 then 0
    else (if columns[0].kind == Done then |columns[0].tasks| else 0) + CompletedCount(columns[1..])
  }

  /** Every task of the board sits in a DONE column. */
  predicate AllTasksDone(columns: seq<BoardUseCases.ColumnOutput>) {
    forall i :: 0 <= i < |columns| ==> columns[i].kind == Done || |columns[i].tasks| == 0
  }

  /** The percentage of `completed` among `total` tasks, cut to a whole
      number; no tasks means no progress. */
  function Progress(completed: nat, total: nat): int {
    if total > 0 then completed * 100 / total else 0
  }

  /** `toDto` on the complete view of `board`. */
  function ToDto(board: Board, view: BoardUseCases.CompleteBoardOutput): (r: BoardResponse)
    ensures r.id == board.id && r.title == board.title
    ensures 0 <= r.progress <= 100
  {
    var total := TaskCount(view.columns);
    var completed := CompletedCount(view.columns);
    CompletedAtMostTotal(view.columns);
    ProgressRange(completed, total);
    BoardResponse(board.id, board.title, total, Progress(completed, total))
  }

  /** `toDto` as a whole: the complete board use case runs first, and an
      unknown board fails with its not-found error; otherwise the response
      carries the board's own id and title and counts the tasks the
      repositories list for its columns. */
  function BoardToDto(g: Repos, board: Board): (r: Result<BoardResponse, Error>)
    requires board.id.Some? && BoardUseCases.ColumnsHaveIds(g, board.id.value)
    ensures r.Ok? <==> g.boardFindById(board.id.value).Some?
    ensures r.Err? ==> r.error == EntityNotFound(NotFoundByIdMessage(board.id.value))
    ensures r.Ok? ==>
      && r.value.id == board.id && r.value.title == board.title
      && 0 <= r.value.progress <= 100
      && |BoardUseCases.CompleteBoard(g, board.id.value).result.value.columns|
         == |OrEmpty(g.columnsByBoard(board.id.value))|
  {
    match BoardUseCases.CompleteBoard(g, board.id.value).result
    case Ok(view) => Ok(ToDto(board, view))
    case Err(e) => Err(e)
  }

  // ---------------------------------------------------------------------
  // Properties of the counts and of the percentage
  // ---------------------------------------------------------------------

  /** Both counts add up over consecutive runs of columns. */
  lemma {:induction false} CountsOfConcat(a: seq<BoardUseCases.ColumnOutput>, b: seq<BoardUseCases.ColumnOutput>)
    ensures TaskCount(a + b) == TaskCount(a) + TaskCount(b)
    ensures CompletedCount(a + b) == CompletedCount(a) + CompletedCount(b)
    decreases |a|
  {
    if |a| == 0 {
      assert a + b == b;
    } else {
      assert (a + b)[0] == a[0];
      assert (a + b)[1..] == a[1..] + b;
      CountsOfConcat(a[1..], b);
    }
  }

  /** The completed tasks are among all the tasks. */
  lemma {:induction false} CompletedAtMostTotal(columns: seq<BoardUseCases.ColumnOutput>)
    ensures CompletedCount(columns) <= TaskCount(columns)
    decreases |columns|
  {
    if |columns| > 0 {
      CompletedAtMostTotal(columns[1..]);
    }
  }

  /** All the tasks are completed exactly when no task sits outside a DONE
      column. */
  lemma {:induction false} AllDoneIffCountsAgree(columns: seq<BoardUseCases.ColumnOutput>)
    ensures CompletedCount(columns) == TaskCount(columns) <==> AllTasksDone(columns)
    decreases |columns|
  {
    if |columns| > 0 {
      AllDoneIffCountsAgree(columns[1..]);
      CompletedAtMostTotal(columns[1..]);
      assert AllTasksDone(columns) <==>
        (columns[0].kind == Done || |columns[0].tasks| == 0) && AllTasksDone(columns[1..]) by {
        forall i | 1 <= i < |columns|
          ensures columns[i] == columns[1..][i - 1]
        {
        }
      }
    }
  }

  /** The percentage lies between 0 and 100; it is 100 exactly when there
      are tasks and all of them are completed, and 0 when nothing is
      completed. */
  lemma ProgressRange(completed: nat, total: nat)
    requires completed <= total
    ensures 0 <= Progress(completed, total) <= 100
    ensures Progress(completed, total) == 100 <==> total > 0 && completed == total
    ensures completed == 0 ==> Progress(completed, total) == 0
  {
    if total > 0 {
      var n := completed * 100;
      DivBelow(n, total, 101);
      if completed == total {
        DivAtLeast(n, total, 100);
      } else {
        DivBelow(n, total, 100);
      }
      if completed == 0 {
        DivBelow(n, total, 1);
      }
    }
  }

  /** Cancelling a positive factor keeps a strict order. */
  lemma MulCancel(q: int, k: int, d: int)
    requires d > 0 && q * d < k * d
    ensures q < k
  {
    if q >= k {
      MulMono(k, q, d);
    }
  }

  lemma MulMono(a: int, b: int, d: int)
    requires a <= b && d >= 0
    ensures a * d <= b * d
  {
  }

  /** A quotient stays below `k` when the dividend stays below `k` times the
      divisor. */
  lemma DivBelow(n: nat, d: nat, k: int)
    requires d > 0 && n < k * d
    ensures n / d < k
  {
    var q := n / d;
    assert q * d + n % d == n;
    MulCancel(q, k, d);
  }

  /** A quotient reaches `k` when the dividend reaches `k` times the divisor. */
  lemma DivAtLeast(n: nat, d: nat, k: int)
    requires d > 0 && k * d <= n
    ensures k <= n / d
  {
    var q := n / d;
    assert q * d + n % d == n;
    MulCancel(k - 1, q + 1, d);
  }

  /** The summary of a complete view: the task count is every task of every
      column, and the progress is 100 exactly when the board has tasks and
      all of them sit in DONE columns. */
  lemma ToDtoCounts(board: Board, view: BoardUseCases.CompleteBoardOutput)
    ensures var r := ToDto(board, view);
      && r.taskCount == TaskCount(view.columns)
      && (r.progress == 100 <==> r.taskCount > 0 && AllTasksDone(view.columns))
      && (r.taskCount == 0 ==> r.progress == 0)
  {
    CompletedAtMostTotal(view.columns);
    AllDoneIffCountsAgree(view.columns);
    ProgressRange(CompletedCount(view.columns), TaskCount(view.columns));
  }

  /** Listing the columns in another order gives the same summary. */
  lemma {:induction false} SwapKeepsCounts(columns: seq<BoardUseCases.ColumnOutput>, i: nat, j: nat)
    requires i < j < |columns|
    ensures var swapped := columns[i := columns[j]][j := columns[i]];
      TaskCount(swapped) == TaskCount(columns) && CompletedCount(swapped) == CompletedCount(columns)
  {
    var swapped := columns[i := columns[j]][j := columns[i]];
    var a, x, m, y, z := columns[..i], [columns[i]], columns[i + 1..j], [columns[j]], columns[j + 1..];
    assert columns == a + x + m + y + z;
    assert swapped == a + y + m + x + z;
    CountsOfConcat(a + x + m + y, z);
    CountsOfConcat(a + x + m, y);
    CountsOfConcat(a + x, m);
    CountsOfConcat(a, x);
    CountsOfConcat(a + y + m + x, z);
    CountsOfConcat(a + y + m, x);
    CountsOfConcat(a + y, m);
    CountsOfConcat(a, y);
  }
}
