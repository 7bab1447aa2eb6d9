/**
  The execution table as one process sees it: recording an execution from start
  to end, and reading the history of a job page by page with the total taken
  from the page itself when that is possible.
*/
module ExecutionLog {
  import opened Basics
  import opened CronSystem
  import JobTable

  datatype Execution = Execution(id: nat, jobName: string, status: Status, manual: bool, error: string, deleted: bool)

  /** Rows are kept in the order of their generated ids. */
  ghost predicate IdsAscend(rows: seq<Execution>, nextId: nat) {
    nextId > 0 &&
    (forall i | 0 <= i < |rows| :: 0 < rows[i].id < nextId) &&
    (forall i, j | 0 <= i < j < |rows| :: rows[i].id < rows[j].id)
  }

  predicate Matches(row: Execution, name: string) {
    row.jobName == name && !row.deleted
  }

  /** The job's rows ordered by descending id. */
  function NewestFirst(rows: seq<Execution>, name: string): seq<Execution> {
    if rows == [] then []
    else
      var last := rows[|rows| - 1];
      (if Matches(last, name) then [last] else []) + NewestFirst(rows[..|rows| - 1], name)
  }

  lemma {:induction false} NewestFirstMembers(rows: seq<Execution>, name: string)
    ensures forall row :: row in NewestFirst(rows, name) <==> row in rows && Matches(row, name)
  {
    if rows == [] {
    } else {
      NewestFirstMembers(rows[..|rows| - 1], name);
      assert rows == rows[..|rows| - 1] + [rows[|rows| - 1]];
    }
  }

  lemma {:induction false} NewestFirstDescends(rows: seq<Execution>, nextId: nat, name: string)
    requires IdsAscend(rows, nextId)
    ensures forall i, j | 0 <= i < j < |NewestFirst(rows, name)| ::
              NewestFirst(rows, name)[i].id > NewestFirst(rows, name)[j].id
  {
    if rows == [] {
    } else {
      var rest := rows[..|rows| - 1];
      NewestFirstDescends(rest, nextId, name);
      NewestFirstMembers(rest, name);
      forall row | row in NewestFirst(rest, name)
        ensures row.id < rows[|rows| - 1].id
      {
        var i :| 0 <= i < |rest| && rest[i] == row;
        assert rows[i] == row;
      }
    }
  }

  // ----- paging

  function Min(a: int, b: int): int {
    if a < b then a else b
  }

  /**
    OFFSET and LIMIT as the query builder writes them: an offset that is not positive and a negative limit are left
    out.
  */
  function Slice<T>(all: seq<T>, offset: int, limit: int): seq<T> {
    var from := if offset > 0 then Min(offset, |all|) else 0;
    all[from..if limit < 0 then |all| else Min(from + limit, |all|)]
  }

  function PageOf<T>(all: seq<T>, page: nat, size: nat): seq<T>
    requires page > 0
  {
    var from := (page - 1) * size;
    if from > |all| then [] else all[from..Min(from + size, |all|)]
  }

  function NormalPage(page: int): int {
    if page < 1 then 1 else page
  }

  function NormalSize(size: int): int {
    if size < 1 || size > 100 then 20 else size
  }

  /** The offset ListExecutions computes for a normalised page and size. */
  function Offset(page: int, size: int): int {
    Wrap((page - 1) * size)
  }

  /** An offset that does not overflow selects exactly the page. */
  lemma SliceIsPage<T>(all: seq<T>, page: nat, size: nat)
    requires page > 0 && size > 0 && Fits((page - 1) * size)
    ensures Offset(page, size) == (page - 1) * size >= 0
    ensures Slice(all, Offset(page, size), size) == PageOf(all, page, size)
  {
    var from := (page - 1) * size;
    assert from >= 0 && Wrap(from) == from;
  }

  /** At most `size` rows, those that come after the first `from`, in their order, and no fewer than there are. */
  ghost predicate IsPage<T(!new)>(all: seq<T>, from: int, size: int, result: seq<T>) {
    |result| == (if from >= |all| then 0 else if |all| - from < size then |all| - from else size) &&
    forall i | 0 <= i < |result| :: 0 <= from + i < |all| && result[i] == all[from + i]
  }

  lemma PageIsPage<T(!new)>(all: seq<T>, page: nat, size: nat, from: nat)
    requires page > 0 && (page - 1) * size == from
    ensures IsPage(all, from, size, PageOf(all, page, size))
  {
  }

  /** The rows of one page, and a total that is counted only when the page does not show it. */
  method FindByPage(all: seq<Execution>, offset: int, limit: int) returns (result: seq<Execution>, count: int)
    ensures result == Slice(all, offset, limit)
    ensures count == |all| <==> !(offset < 0 && 0 < |all| < limit)
  {
    result := Slice(all, offset, limit);
    var size := |result|;
    if 0 < limit && 0 < size < limit {
      return result, size + offset;
    }
    count := |all|;
  }

  /**
    With an offset that fits in an int the total is the full count and the rows are those of the page. Without, the
    total is still right exactly when the wrapped offset is not negative, or the history is empty or fills a page.
  */
  method ListExecutions(rows: seq<Execution>, name: string, page: int, pageSize: int)
    returns (result: seq<Execution>, total: int)
    requires Fits(page) && Fits(pageSize)
    ensures var all, p, s := NewestFirst(rows, name), NormalPage(page), NormalSize(pageSize);
            Fits((p - 1) * s) ==> total == |all| && result == PageOf(all, p, s)
    ensures var all, p, s := NewestFirst(rows, name), NormalPage(page), NormalSize(pageSize);
            total == |all| <==> Offset(p, s) >= 0 || |all| == 0 || |all| >= s
    ensures var p, s := if page < 1 then 1 else page, if pageSize < 1 || pageSize > 100 then 20 else pageSize;
            Fits((p - 1) * s) ==> IsPage(NewestFirst(rows, name), (p - 1) * s, s, result)
  {
    var p, s := page, pageSize;
    if p < 1 {
      p := 1;
    }
    if s < 1 || s > 100 {
      s := 20;
    }
    var all := NewestFirst(rows, name);
    result, total := FindByPage(all, Offset(p, s), s);
    if Fits((p - 1) * s) {
      SliceIsPage(all, p, s);
      PageIsPage(all, p, s, (p - 1) * s);
    }
  }

  /** The pages 1 to k, one after the other. */
  function FirstPages<T>(all: seq<T>, size: nat, k: nat): seq<T> {
    if k == 0 then [] else FirstPages(all, size, k - 1) + PageOf(all, k, size)
  }

  /** The page that starts at `from` continues the prefix that ends there. */
  lemma PageContinues<T>(all: seq<T>, from: nat, page: nat, size: nat)
    requires page > 0 && (page - 1) * size == from
    ensures all[..Min(from, |all|)] + PageOf(all, page, size) == all[..Min(from + size, |all|)]
  {
  }

  lemma {:induction false} FirstPagesArePrefix<T>(all: seq<T>, size: nat, k: nat)
    requires size > 0
    ensures FirstPages(all, size, k) == all[..Min(k * size, |all|)]
  {
    if k == 0 {
    } else {
      FirstPagesArePrefix(all, size, k - 1);
      var from := (k - 1) * size;
      assert k * size == from + size;
      PageContinues(all, from, k, size);
    }
  }

  /** As many pages as the total asks for show the whole history once, newest first; the page after them is empty. */
  lemma PagesPartition<T>(all: seq<T>, size: nat)
    requires size > 0
    ensures var k := (|all| + size - 1) / size;
            FirstPages(all, size, k) == all && PageOf(all, k + 1, size) == []
  {
    var k := (|all| + size - 1) / size;
    assert k * size >= |all| by {
      assert |all| + size - 1 == k * size + (|all| + size - 1) % size;
    }
    FirstPagesArePrefix(all, size, k);
  }

  // ----- recording

  function WithOutcome(rows: seq<Execution>, id: nat, status: Status, error: string): seq<Execution> {
    seq(|rows|, i requires 0 <= i < |rows| =>
      if rows[i].id == id && !rows[i].deleted then rows[i].(status := status, error := error) else rows[i])
  }

  /** The status as it is stored. */
  function StatusText(status: Status): string {
    match status
    case Running => "running"
    case Success => "success"
    case Failed => "failed"
    case Aborted => "cancelled"
    case Panicked => "panic"
  }

  class Recorder {
    var rows: seq<Execution>
    var nextId: nat

    ghost predicate Valid()
      reads this
    {
      IdsAscend(rows, nextId)
    }

    constructor ()
      ensures Valid() && rows == []
    {
      rows, nextId := [], 1;
    }

    method RecordStart(jobName: string, manual: bool, ok: bool) returns (id: nat)
      requires Valid()
      modifies this
      ensures Valid()
      ensures if ok then id == old(nextId) && rows == old(rows) + [Execution(id, jobName, Running, manual, "", false)]
              else id == 0 && rows == old(rows)
    {
      if !ok {
        return 0;
      }
      id := nextId;
      rows := rows + [Execution(id, jobName, Running, manual, "", false)];
      nextId := nextId + 1;
    }

    /** The row of that id, which is one at most, gets the outcome; no other column and no other row changes. */
    method RecordEnd(id: nat, status: Status, error: string)
      requires Valid()
      modifies this`rows
      ensures Valid() && |rows| == |old(rows)|
      ensures forall i | 0 <= i < |rows| && (old(rows)[i].id != id || old(rows)[i].deleted) :: rows[i] == old(rows)[i]
      ensures forall i | 0 <= i < |rows| && old(rows)[i].id == id && !old(rows)[i].deleted ::
                rows[i].status == status && rows[i].error == error &&
                rows[i] == old(rows)[i].(status := status, error := error)
      ensures forall i, j | 0 <= i < |rows| && 0 <= j < |rows| && rows[i] != old(rows)[i] && rows[j] != old(rows)[j] ::
                i == j
    {
      rows := WithOutcome(rows, id, status, error);
    }

    /**
      One execution from record to record. `result` and `error` are what the job does, `cancelled` says whether its
      context is cancelled by the time it returns. Exactly one row is added, finished with the final status; without a
      start record there is none. In both cases the last run of the job is updated.
    */
    method ExecuteWithRecording(jobs: JobTable.CronJobService, jobName: string, manual: bool, result: Result,
        error: string, cancelled: bool, startOk: bool, endedAt: int)
      returns (status: Status)
      requires Valid() && (result == Returned ==> error == "")
      modifies this, jobs
      ensures Valid()
      ensures status == Panicked <==> result == Panicking
      ensures status == Aborted <==> cancelled && result != Panicking
      ensures status == Failed <==> result == Errored && !cancelled
      ensures status == Success <==> result == Returned && !cancelled
      ensures if startOk
              then exists id: nat :: rows == old(rows) + [Execution(id, jobName, status, manual, error, false)]
              else rows == old(rows)
      ensures forall i | 0 <= i < |old(jobs.rows)| && JobTable.IsLive(old(jobs.rows)[i], jobName) ::
                i < |jobs.rows| && jobs.rows[i].lastRun == Some(endedAt) &&
                jobs.rows[i].lastStatus == Some(if result == Panicking then "panic" else if cancelled then "cancelled"
                                                else if result == Errored then "failed" else "success")
      ensures jobs.rows == JobTable.SetLastRun(old(jobs.rows), jobName, StatusText(status), endedAt)
    {
      var id := RecordStart(jobName, manual, startOk);
      var known := false;
      status := Running;
      if result == Panicking {
        status, known := Panicked, true;
      }
      if !known {
        if cancelled {
          status := Aborted;
        } else if result == Errored {
          status := Failed;
        } else {
          status := Success;
        }
      }
      if id > 0 {
        RecordEnd(id, status, error);
        assert rows == old(rows) + [Execution(id, jobName, status, manual, error, false)];
      }
      jobs.UpdateLastRun(jobName, StatusText(status), endedAt);
    }
  }
}
