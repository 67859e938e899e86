/**
 * JobStore: the upload jobs of the web panel, a table from job ids to shared progress
 * counters, and the Progress endpoint's percentage. The fresh GUID of a new job is a
 * parameter.
 */
module Jobs {
  import opened Results
  import ProcessLog

  /** The progress of one upload: counters the upload task updates in place. */
  class JobProgress {
    var totalBytes: int
    var processedBytes: int

    constructor()
      ensures totalBytes == 0 && processedBytes == 0
    {
      totalBytes := 0;
      processedBytes := 0;
    }
  }

  class JobStore {
    var jobs: map<string, JobProgress>

    constructor()
      ensures jobs == map[]
    {
      jobs := map[];
    }

    /** Create: a new zeroed job under a fresh id; every other job stays as it was. */
    method Create(newId: string) returns (id: string)
      modifies this
      ensures id == newId && id in jobs && fresh(jobs[id])
      ensures jobs[id].totalBytes == 0 && jobs[id].processedBytes == 0
      ensures forall other :: other != id ==> (other in jobs <==> other in old(jobs))
      ensures forall other :: other != id && other in old(jobs) ==> jobs[other] == old(jobs)[other]
    {
      id := newId;
      var progress := new JobProgress();
      jobs := jobs[id := progress];
    }

    /** ContainsKey: whether the id has a job. */
    predicate ContainsKey(id: string)
      reads this
    {
      id in jobs
    }

    /**
     * TryGet: the stored counters themselves when the id has a job, so that updates made
     * through them are seen by every later lookup; otherwise false and fresh zeroed counters.
     */
    method TryGet(id: string) returns (found: bool, progress: JobProgress)
      ensures found <==> ContainsKey(id)
      ensures found ==> progress == jobs[id]
      ensures !found ==> fresh(progress) && progress.totalBytes == 0 && progress.processedBytes == 0
    {
      if id in jobs {
        found := true;
        progress := jobs[id];
      } else {
        found := false;
        progress := new JobProgress();
      }
    }

    /** Remove: the id has no job afterwards; removing an absent id changes nothing. */
    method Remove(id: string)
      modifies this
      ensures jobs == old(jobs) - {id}
      ensures id !in old(jobs) ==> jobs == old(jobs)
    {
      jobs := jobs - {id};
    }
  }

  // ---------------------------------------------------------------------------------------
  // The Progress endpoint

  /** C#'s integer division, which truncates toward zero. */
  function TruncDiv(a: int, b: int): (q: int)
    requires b > 0
    ensures a >= 0 ==> q * b <= a < q * b + b
    ensures a < 0 ==> q * b >= a > q * b - b
  {
    if a >= 0 then a / b else -((-a) / b)
  }

  /** The percentage as HomeController.Progress computes it: ProcessedBytes / TotalBytes * 100 in long. */
  function ProgressAsWritten(totalBytes: int, processedBytes: int): int
  {
    if totalBytes > 0 then TruncDiv(processedBytes, totalBytes) * 100 else 0
  }

  /** Before the upload completes the endpoint reports 0 however far it has got. */
  lemma ProgressAsWrittenStuck(totalBytes: int, processedBytes: int)
    requires 0 <= processedBytes < totalBytes
    ensures ProgressAsWritten(totalBytes, processedBytes) == 0
  {
    FloorUnique(processedBytes, totalBytes, 0);
  }

  /** Half of a 100-byte upload is reported as 0 percent. */
  lemma ProgressAsWrittenHalfway()
    ensures ProgressAsWritten(100, 50) == 0
  {
    ProgressAsWrittenStuck(100, 50);
  }

  /** The percentage the endpoint is meant to report: the share processed, scaled first, then divided. */
  function ProgressCorrected(totalBytes: int, processedBytes: int): int
  {
    if totalBytes > 0 then TruncDiv(processedBytes * 100, totalBytes) else 0
  }

  /**
   * For an upload in progress the corrected percentage is the whole part of 100 * processed /
   * total: between 0 and 100, 100 exactly once every byte is processed, and it never goes down
   * as more bytes are processed.
   */
  lemma ProgressCorrectedSpec(totalBytes: int, processedBytes: int, later: int)
    requires 0 <= processedBytes <= later <= totalBytes && totalBytes > 0
    ensures var p := ProgressCorrected(totalBytes, processedBytes);
      && p * totalBytes <= processedBytes * 100 < p * totalBytes + totalBytes
      && 0 <= p <= 100
      && (p == 100 <==> processedBytes == totalBytes)
      && p <= ProgressCorrected(totalBytes, later)
  {
    var n, m, t := processedBytes * 100, later * 100, totalBytes * 100;
    DivMonotone(n, m, totalBytes);
    DivMonotone(m, t, totalBytes);
    FloorUnique(t, totalBytes, 100);
  }

  lemma MulLe(a: int, b: int, c: int)
    requires a <= b && c >= 0
    ensures a * c <= b * c
  {
    ProcessLog.MulNonNegative(b - a, c);
    assert b * c - a * c == (b - a) * c;
  }

  /** Division by a positive number keeps the order of non-negative numbers. */
  lemma DivMonotone(a: int, b: int, t: int)
    requires 0 <= a <= b && t > 0
    ensures 0 <= a / t <= b / t
  {
    var qa, qb := a / t, b / t;
    assert qa * t + a % t == a;
    assert qb * t + b % t == b;
    if qa > qb {
      assert (qb + 1) * t == qb * t + t;
      MulLe(qb + 1, qa, t);
    }
    if qa < 0 {
      MulLe(qa, -1, t);
    }
  }

  /** The quotient is the one q with q * t <= n < (q + 1) * t. */
  lemma FloorUnique(n: int, t: int, q: int)
    requires t > 0 && q * t <= n < q * t + t
    ensures n / t == q
  {
    var r := n / t;
    assert r * t + n % t == n;
    if r > q {
      assert (q + 1) * t == q * t + t;
      MulLe(q + 1, r, t);
    } else if r < q {
      MulLe(r + 1, q, t);
    }
  }

  /**
   * HomeController.Progress: NotFound (None) for an unknown job, otherwise the corrected
   * percentage of its counters.
   */
  method Progress(store: JobStore, jobId: string) returns (percent: Option<int>)
    ensures percent.None? <==> !store.ContainsKey(jobId)
    ensures percent.Some? ==>
      percent.value == ProgressCorrected(store.jobs[jobId].totalBytes, store.jobs[jobId].processedBytes)
  {
    var found, prog := store.TryGet(jobId);
    if !found {
      return None;
    }
    var p := if prog.totalBytes > 0 then TruncDiv(prog.processedBytes * 100, prog.totalBytes) else 0;
    percent := Some(p);
  }
}
