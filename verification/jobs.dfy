/**
 * The job bookkeeping of app.py: the stage-weighted overall percentage of a
 * job, the field merge that recomputes it, and the filter/sort/limit kernel
 * that lists jobs. A job is a dictionary from field names to JSON-like values.
 */
module Jobs {
  import opened Wrappers

  /**
   * The values a job field can hold, as far as the arithmetic distinguishes
   * them; `Other` is a list or a dictionary, neither hashable nor comparable
   * with a number.
   */
  datatype Value = Null | Bool(b: bool) | Num(r: real) | Str(s: string) | Other

  type Job = map<string, Value>

  /** `STAGE_WEIGHTS`, in its insertion order. */
  const STAGE_WEIGHTS: seq<(string, real)> :=
    [("queued", 0.0), ("downloading", 0.05), ("reframing", 0.80), ("muxing", 0.05), ("uploading", 0.10)]

  // ---------------------------------------------------------------------
  // _progress_for
  // ---------------------------------------------------------------------

  /** `job.get("stage", "queued")`. */
  function StageOf(job: Job): Value {
    if "stage" in job then job["stage"] else Str("queued")
  }

  /** `job.get("stage_progress", 0.0)`. */
  function StageProgressOf(job: Job): Value {
    if "stage_progress" in job then job["stage_progress"] else Num(0.0)
  }

  /**
   * The number Python's `min`/`max` see: a number, or a boolean as 0 or 1;
   * anything else makes the comparison raise `TypeError`.
   */
  function NumericValue(v: Value): Option<real> {
    match v
    case Num(r) => Some(r)
    case Bool(b) => Some(if b then 1.0 else 0.0)
    case _ => None
  }

  /** Sum of the weights listed before the first entry named `stage`; all of them if none is. */
  function DoneBefore(table: seq<(string, real)>, stage: Value): real {
    if table == [] then 0.0
    else if Str(table[0].0) == stage then 0.0
    else table[0].1 + DoneBefore(table[1..], stage)
  }

  /** `STAGE_WEIGHTS.get(stage, 0.0)`: the weight of the first entry named `stage`. */
  function WeightOf(table: seq<(string, real)>, stage: Value): real {
    if table == [] then 0.0
    else if Str(table[0].0) == stage then table[0].1
    else WeightOf(table[1..], stage)
  }

  function TotalWeight(table: seq<(string, real)>): real {
    if table == [] then 0.0 else table[0].1 + TotalWeight(table[1..])
  }

  /** `max(0.0, min(1.0, x))`. */
  function Clamp01(x: real): (c: real)
    ensures 0.0 <= c <= 1.0
    ensures 0.0 <= x <= 1.0 ==> c == x
    ensures x < 0.0 ==> c == 0.0
    ensures x > 1.0 ==> c == 1.0
  {
    if x < 0.0 then 0.0 else if x > 1.0 then 1.0 else x
  }

  /** The percentage for a stage at a given numeric stage progress (before rounding). */
  function ProgressAt(stage: Value, x: real): real {
    100.0 * (DoneBefore(STAGE_WEIGHTS, stage) + WeightOf(STAGE_WEIGHTS, stage) * Clamp01(x))
  }

  /**
   * `_progress_for`: None when the stage is a list or a dictionary
   * (`STAGE_WEIGHTS.get` raises on an unhashable key) or when `stage_progress`
   * is not a number (the comparison inside `min` raises), otherwise the
   * stage-weighted percentage.
   */
  function ProgressFor(job: Job): (p: Option<real>)
    ensures p.Some? <==> !StageOf(job).Other? && NumericValue(StageProgressOf(job)).Some?
    ensures p.Some? ==> p.value == ProgressAt(StageOf(job), NumericValue(StageProgressOf(job)).value)
  {
    if StageOf(job).Other? then None
    else
      match NumericValue(StageProgressOf(job))
      case Some(x) => Some(ProgressAt(StageOf(job), x))
      case None => None
  }

  predicate NonNegativeWeights(table: seq<(string, real)>) {
    forall i :: 0 <= i < |table| ==> table[i].1 >= 0.0
  }

  /** The weights before a stage plus its own weight never exceed the table total. */
  lemma {:induction false} DoneBeforeBounds(table: seq<(string, real)>, stage: Value)
    requires NonNegativeWeights(table)
    ensures 0.0 <= DoneBefore(table, stage)
    ensures DoneBefore(table, stage) + WeightOf(table, stage) <= TotalWeight(table)
    ensures 0.0 <= WeightOf(table, stage)
  {
    if table != [] {
      assert NonNegativeWeights(table[1..]) by {
        forall i | 0 <= i < |table[1..]| ensures table[1..][i].1 >= 0.0 {
          assert table[1..][i] == table[i + 1];
        }
      }
      DoneBeforeBounds(table[1..], stage);
      if Str(table[0].0) == stage {
        TotalNonNegative(table[1..]);
      }
    }
  }

  lemma {:induction false} TotalNonNegative(table: seq<(string, real)>)
    requires NonNegativeWeights(table)
    ensures TotalWeight(table) >= 0.0
  {
    if table != [] {
      assert NonNegativeWeights(table[1..]) by {
        forall i | 0 <= i < |table[1..]| ensures table[1..][i].1 >= 0.0 {
          assert table[1..][i] == table[i + 1];
        }
      }
      TotalNonNegative(table[1..]);
    }
  }

  /** Every stage name is listed once. */
  predicate DistinctNames(table: seq<(string, real)>) {
    forall i, j :: 0 <= i < j < |table| ==> table[i].0 != table[j].0
  }

  lemma DistinctTail(table: seq<(string, real)>)
    requires table != [] && DistinctNames(table)
    ensures DistinctNames(table[1..])
    ensures forall i :: 0 <= i < |table[1..]| ==> table[1..][i].0 != table[0].0
  {
    forall i, j | 0 <= i < j < |table[1..]| ensures table[1..][i].0 != table[1..][j].0 {
      assert table[1..][i] == table[i + 1] && table[1..][j] == table[j + 1];
    }
    forall i | 0 <= i < |table[1..]| ensures table[1..][i].0 != table[0].0 {
      assert table[1..][i] == table[i + 1];
    }
  }

  /**
   * In a table with distinct names, the weight done before stage k + 1 is the
   * weight done before stage k plus stage k's own weight.
   */
  lemma {:induction false} DoneBeforeNext(table: seq<(string, real)>, k: nat)
    requires DistinctNames(table) && k + 1 < |table|
    ensures DoneBefore(table, Str(table[k + 1].0)) ==
            DoneBefore(table, Str(table[k].0)) + WeightOf(table, Str(table[k].0))
  {
    DistinctTail(table);
    var rest := table[1..];
    if k == 0 {
      assert rest[0] == table[1];
      assert DoneBefore(rest, Str(table[1].0)) == 0.0;
    } else {
      assert rest[k - 1] == table[k] && rest[k] == table[k + 1];
      DoneBeforeNext(rest, k - 1);
    }
  }

  /** A stage missing from the table accumulates every weight and has no weight of its own. */
  lemma {:induction false} DoneBeforeMissing(table: seq<(string, real)>, stage: Value)
    requires forall i :: 0 <= i < |table| ==> stage != Str(table[i].0)
    ensures DoneBefore(table, stage) == TotalWeight(table)
    ensures WeightOf(table, stage) == 0.0
  {
    if table != [] {
      forall i | 0 <= i < |table[1..]| ensures stage != Str(table[1..][i].0) {
        assert table[1..][i] == table[i + 1];
      }
      DoneBeforeMissing(table[1..], stage);
    }
  }

  lemma StageTable()
    ensures TotalWeight(STAGE_WEIGHTS) == 1.0
    ensures NonNegativeWeights(STAGE_WEIGHTS)
    ensures DistinctNames(STAGE_WEIGHTS)
  {
    assert STAGE_WEIGHTS[1..][1..][1..][1..][1..] == [];
  }

  lemma MulBounds(w: real, c: real)
    requires 0.0 <= w && 0.0 <= c <= 1.0
    ensures 0.0 <= w * c <= w
  {
  }

  lemma MulMonotone(w: real, a: real, b: real)
    requires 0.0 <= w && a <= b
    ensures w * a <= w * b
  {
    assert w * b - w * a == w * (b - a);
  }

  /** For any table of non-negative weights summing to 1, done-plus-partial lies in [0, 1]. */
  lemma FractionInRange(table: seq<(string, real)>, stage: Value, c: real)
    requires NonNegativeWeights(table) && TotalWeight(table) == 1.0 && 0.0 <= c <= 1.0
    ensures 0.0 <= DoneBefore(table, stage) + WeightOf(table, stage) * c <= 1.0
  {
    DoneBeforeBounds(table, stage);
    var d, w := DoneBefore(table, stage), WeightOf(table, stage);
    MulBounds(w, c);
    var wc := w * c;
    assert 0.0 <= d + wc <= 1.0;
  }

  /** Whatever the stage and its progress, the percentage lies in [0, 100]. */
  lemma ProgressInRange(stage: Value, x: real)
    ensures 0.0 <= ProgressAt(stage, x) <= 100.0
  {
    StageTable();
    FractionInRange(STAGE_WEIGHTS, stage, Clamp01(x));
  }

  /** Stage "queued" is worth nothing, whatever its progress. */
  lemma QueuedIsZero(x: real)
    ensures ProgressAt(Str("queued"), x) == 0.0
  {
  }

  /** A stage missing from the table ("done", "error", or no string at all) is complete. */
  lemma UnknownStageIsComplete(stage: Value, x: real)
    requires forall k :: 0 <= k < |STAGE_WEIGHTS| ==> stage != Str(STAGE_WEIGHTS[k].0)
    ensures ProgressAt(stage, x) == 100.0
  {
    StageTable();
    DoneBeforeMissing(STAGE_WEIGHTS, stage);
  }

  /** Within a stage, more progress never lowers the percentage. */
  lemma ProgressMonotone(stage: Value, x: real, y: real)
    requires x <= y
    ensures ProgressAt(stage, x) <= ProgressAt(stage, y)
  {
    StageTable();
    DoneBeforeBounds(STAGE_WEIGHTS, stage);
    var d, w := DoneBefore(STAGE_WEIGHTS, stage), WeightOf(STAGE_WEIGHTS, stage);
    var cx, cy := Clamp01(x), Clamp01(y);
    assert cx <= cy;
    MulMonotone(w, cx, cy);
    var a, b := w * cx, w * cy;
    assert d + a <= d + b;
  }

  /** Finishing a stage gives exactly the percentage of starting the next one. */
  lemma StageBoundariesContinuous(k: nat)
    requires k + 1 < |STAGE_WEIGHTS|
    ensures ProgressAt(Str(STAGE_WEIGHTS[k].0), 1.0) == ProgressAt(Str(STAGE_WEIGHTS[k + 1].0), 0.0)
  {
    StageTable();
    DoneBeforeNext(STAGE_WEIGHTS, k);
  }

  // ---------------------------------------------------------------------
  // The job table
  // ---------------------------------------------------------------------

  /** What `_set` does: updates the job, or raises. */
  datatype SetOutcome = Updated | MissingJob | ProgressTypeError

  /** `_jobs.get("status")` compared with the filter string. */
  predicate HasStatus(job: Job, status: string) {
    "status" in job && job["status"] == Str(status)
  }

  /** `if status_filter and job.get("status") != status_filter: continue`. */
  predicate Keep(job: Job, statusFilter: Option<string>) {
    statusFilter.None? || statusFilter.value == "" || HasStatus(job, statusFilter.value)
  }

  /** The kept jobs, in table order. */
  function Select(jobs: seq<Job>, statusFilter: Option<string>): (r: seq<Job>)
    ensures |r| <= |jobs|
  {
    if jobs == [] then []
    else Select(jobs[..|jobs| - 1], statusFilter) +
         (if Keep(jobs[|jobs| - 1], statusFilter) then [jobs[|jobs| - 1]] else [])
  }

  /** Selecting one more job of the table appends it when it passes the filter. */
  lemma SelectSnoc(jobs: seq<Job>, i: nat, statusFilter: Option<string>)
    requires i < |jobs|
    ensures Select(jobs[..i + 1], statusFilter) ==
            Select(jobs[..i], statusFilter) + (if Keep(jobs[i], statusFilter) then [jobs[i]] else [])
  {
    assert jobs[..i + 1][..i] == jobs[..i];
  }

  /** `x.get("created_at", 0)`; a creation time that is not a number is read as 0. */
  function CreatedAt(job: Job): real {
    if "created_at" in job && job["created_at"].Num? then job["created_at"].r else 0.0
  }

  predicate SortedDesc(s: seq<Job>) {
    forall i, j :: 0 <= i < j < |s| ==> CreatedAt(s[i]) >= CreatedAt(s[j])
  }

  /** The jobs of s created at time c, in their order in s. */
  function WithKey(s: seq<Job>, c: real): seq<Job> {
    if s == [] then []
    else WithKey(s[..|s| - 1], c) + (if CreatedAt(s[|s| - 1]) == c then [s[|s| - 1]] else [])
  }

  /** Places x after every job created no earlier than x. */
  function Insert(x: Job, s: seq<Job>): seq<Job> {
    if s == [] then [x]
    else if CreatedAt(s[0]) >= CreatedAt(x) then [s[0]] + Insert(x, s[1..])
    else [x] + s
  }

  /**
   * `sort(key=created_at, reverse=True)`: Python's sort is stable also when
   * reversed, so jobs created at the same time keep their table order.
   */
  function SortByCreatedDesc(s: seq<Job>): seq<Job> {
    if s == [] then []
    else Insert(s[|s| - 1], SortByCreatedDesc(s[..|s| - 1]))
  }

  /** Insertion adds x and nothing else. */
  lemma {:induction false} InsertPermutes(x: Job, s: seq<Job>)
    ensures multiset(Insert(x, s)) == multiset(s) + multiset{x}
  {
    if s != [] {
      assert s == [s[0]] + s[1..];
      if CreatedAt(s[0]) >= CreatedAt(x) {
        InsertPermutes(x, s[1..]);
      }
    }
  }

  /** The sort is a permutation. */
  lemma {:induction false} SortPermutes(s: seq<Job>)
    ensures multiset(SortByCreatedDesc(s)) == multiset(s)
  {
    if s != [] {
      var init := s[..|s| - 1];
      SortPermutes(init);
      InsertPermutes(s[|s| - 1], SortByCreatedDesc(init));
      assert s == init + [s[|s| - 1]];
    }
  }

  /** `s[:limit]`: a negative limit drops that many jobs from the end. */
  function SliceTo(s: seq<Job>, limit: int): (r: seq<Job>)
    ensures limit >= 0 ==> |r| == if limit < |s| then limit else |s|
    ensures limit < 0 ==> |r| == if |s| + limit > 0 then |s| + limit else 0
    ensures r == s[..|r|]
  {
    if limit >= 0 then (if limit < |s| then s[..limit] else s)
    else if |s| + limit > 0 then s[..|s| + limit]
    else []
  }

  /** Inserting a job no newer than b into jobs no newer than b keeps every job no newer than b. */
  lemma {:induction false} InsertBelow(x: Job, s: seq<Job>, b: real)
    requires CreatedAt(x) <= b && forall i :: 0 <= i < |s| ==> CreatedAt(s[i]) <= b
    ensures forall i :: 0 <= i < |Insert(x, s)| ==> CreatedAt(Insert(x, s)[i]) <= b
  {
    if s == [] {
      assert Insert(x, s) == [x];
    } else if CreatedAt(s[0]) >= CreatedAt(x) {
      forall i | 0 <= i < |s[1..]| ensures CreatedAt(s[1..][i]) <= b {
        assert s[1..][i] == s[i + 1];
      }
      InsertBelow(x, s[1..], b);
      var t := Insert(x, s[1..]);
      var r := [s[0]] + t;
      assert Insert(x, s) == r;
      forall i | 0 <= i < |r| ensures CreatedAt(r[i]) <= b {
        if i == 0 {
          assert r[i] == s[0];
        } else {
          assert r[i] == t[i - 1];
        }
      }
    } else {
      var r := [x] + s;
      assert Insert(x, s) == r;
      forall i | 0 <= i < |r| ensures CreatedAt(r[i]) <= b {
        if i > 0 {
          assert r[i] == s[i - 1];
        }
      }
    }
  }

  /** A job no older than every job of a sorted sequence can go in front of it. */
  lemma PrependSorted(x: Job, t: seq<Job>)
    requires SortedDesc(t) && forall i :: 0 <= i < |t| ==> CreatedAt(t[i]) <= CreatedAt(x)
    ensures SortedDesc([x] + t)
  {
    var r := [x] + t;
    forall i, j | 0 <= i < j < |r| ensures CreatedAt(r[i]) >= CreatedAt(r[j]) {
      assert r[j] == t[j - 1];
      if i > 0 {
        assert r[i] == t[i - 1];
      }
    }
  }

  lemma {:induction false} InsertSorted(x: Job, s: seq<Job>)
    requires SortedDesc(s)
    ensures SortedDesc(Insert(x, s))
  {
    if s == [] {
      assert Insert(x, s) == [x];
    } else if CreatedAt(s[0]) >= CreatedAt(x) {
      SortedTail(s);
      var t := Insert(x, s[1..]);
      InsertSorted(x, s[1..]);
      assert SortedDesc(t);
      InsertBelow(x, s[1..], CreatedAt(s[0]));
      assert forall i :: 0 <= i < |t| ==> CreatedAt(t[i]) <= CreatedAt(s[0]);
      PrependSorted(s[0], t);
      assert Insert(x, s) == [s[0]] + t;
    } else {
      forall i | 0 <= i < |s| ensures CreatedAt(s[i]) <= CreatedAt(x) {
        if i > 0 {
          assert CreatedAt(s[0]) >= CreatedAt(s[i]);
        }
      }
      PrependSorted(x, s);
    }
  }

  /** The sort orders jobs by creation time, newest first. */
  lemma {:induction false} SortSorted(s: seq<Job>)
    ensures SortedDesc(SortByCreatedDesc(s))
  {
    if s != [] {
      SortSorted(s[..|s| - 1]);
      InsertSorted(s[|s| - 1], SortByCreatedDesc(s[..|s| - 1]));
    }
  }

  lemma {:induction false} WithKeyOfPrepend(x: Job, s: seq<Job>, c: real)
    ensures WithKey([x] + s, c) == (if CreatedAt(x) == c then [x] else []) + WithKey(s, c)
  {
    if s == [] {
      assert [x] + s == [x];
      assert WithKey([x], c) == WithKey([x][..0], c) + (if CreatedAt(x) == c then [x] else []);
    } else {
      var t := [x] + s;
      assert t[..|t| - 1] == [x] + s[..|s| - 1];
      WithKeyOfPrepend(x, s[..|s| - 1], c);
    }
  }

  lemma {:induction false} WithKeyBelow(s: seq<Job>, c: real)
    requires forall i :: 0 <= i < |s| ==> CreatedAt(s[i]) < c
    ensures WithKey(s, c) == []
  {
    if s != [] {
      WithKeyBelow(s[..|s| - 1], c);
    }
  }

  lemma SortedTail(s: seq<Job>)
    requires s != [] && SortedDesc(s)
    ensures SortedDesc(s[1..])
    ensures forall j :: 0 <= j < |s[1..]| ==> CreatedAt(s[1..][j]) <= CreatedAt(s[0])
  {
    forall i, j | 0 <= i < j < |s[1..]| ensures CreatedAt(s[1..][i]) >= CreatedAt(s[1..][j]) {
      assert s[1..][i] == s[i + 1] && s[1..][j] == s[j + 1];
    }
    forall j | 0 <= j < |s[1..]| ensures CreatedAt(s[1..][j]) <= CreatedAt(s[0]) {
      assert s[1..][j] == s[j + 1];
    }
  }

  /** Inserting behind the head: the head's contribution comes first on both sides. */
  lemma WithKeyInsertBehind(x: Job, s: seq<Job>, c: real)
    requires s != [] && CreatedAt(s[0]) >= CreatedAt(x)
    requires WithKey(Insert(x, s[1..]), c) == WithKey(s[1..], c) + (if CreatedAt(x) == c then [x] else [])
    ensures WithKey(Insert(x, s), c) == WithKey(s, c) + (if CreatedAt(x) == c then [x] else [])
  {
    var xs := if CreatedAt(x) == c then [x] else [];
    var head, tail := s[0], s[1..];
    var hs := if CreatedAt(head) == c then [head] else [];
    var t := Insert(x, tail);
    assert Insert(x, s) == [head] + t;
    assert [head] + tail == s;
    calc {
      WithKey(Insert(x, s), c);
      { WithKeyOfPrepend(head, t, c); }
      hs + WithKey(t, c);
      hs + (WithKey(tail, c) + xs);
      (hs + WithKey(tail, c)) + xs;
      { WithKeyOfPrepend(head, tail, c); }
      WithKey(s, c) + xs;
    }
  }

  /** Inserting in front of a strictly older head. */
  lemma WithKeyInsertFront(x: Job, s: seq<Job>, c: real)
    requires s != [] && SortedDesc(s) && CreatedAt(s[0]) < CreatedAt(x)
    ensures WithKey(Insert(x, s), c) == WithKey(s, c) + (if CreatedAt(x) == c then [x] else [])
  {
    assert Insert(x, s) == [x] + s;
    WithKeyOfPrepend(x, s, c);
    if CreatedAt(x) == c {
      SortedDesc0Below(s, c);
      WithKeyBelow(s, c);
      assert [x] + [] == [] + [x];
    } else {
      assert [] + WithKey(s, c) == WithKey(s, c) + [];
    }
  }

  lemma {:induction false} WithKeyOfInsert(x: Job, s: seq<Job>, c: real)
    requires SortedDesc(s)
    ensures WithKey(Insert(x, s), c) == WithKey(s, c) + (if CreatedAt(x) == c then [x] else [])
  {
    if s == [] {
      WithKeyOfPrepend(x, [], c);
      assert [x] + [] == [x];
    } else if CreatedAt(s[0]) >= CreatedAt(x) {
      SortedTail(s);
      WithKeyOfInsert(x, s[1..], c);
      WithKeyInsertBehind(x, s, c);
    } else {
      WithKeyInsertFront(x, s, c);
    }
  }

  lemma SortedDesc0Below(s: seq<Job>, c: real)
    requires s != [] && SortedDesc(s) && CreatedAt(s[0]) < c
    ensures forall i :: 0 <= i < |s| ==> CreatedAt(s[i]) < c
  {
    forall i | 0 <= i < |s| ensures CreatedAt(s[i]) < c {
      if i > 0 {
        assert CreatedAt(s[0]) >= CreatedAt(s[i]);
      }
    }
  }

  /**
   * The sort is stable: the jobs created at any one time appear in the
   * result exactly as they appear in the input.
   */
  lemma {:induction false} SortStable(s: seq<Job>, c: real)
    ensures WithKey(SortByCreatedDesc(s), c) == WithKey(s, c)
  {
    if s != [] {
      var init := s[..|s| - 1];
      SortStable(init, c);
      SortSorted(init);
      WithKeyOfInsert(s[|s| - 1], SortByCreatedDesc(init), c);
    }
  }

  lemma {:induction false} SelectKeeps(jobs: seq<Job>, statusFilter: Option<string>)
    ensures var r := Select(jobs, statusFilter);
            && (forall i :: 0 <= i < |r| ==> Keep(r[i], statusFilter))
            && multiset(r) <= multiset(jobs)
  {
    if jobs != [] {
      var init := jobs[..|jobs| - 1];
      SelectKeeps(init, statusFilter);
      assert jobs == init + [jobs[|jobs| - 1]];
    }
  }

  /**
   * The filter is complete as well as sound: each job occurs in the selection
   * exactly as often as in the table when it passes the filter, and not at all
   * otherwise.
   */
  lemma {:induction false} SelectComplete(jobs: seq<Job>, statusFilter: Option<string>)
    ensures forall x :: multiset(Select(jobs, statusFilter))[x] ==
                        if Keep(x, statusFilter) then multiset(jobs)[x] else 0
  {
    if jobs != [] {
      var init := jobs[..|jobs| - 1];
      SelectComplete(init, statusFilter);
      assert jobs == init + [jobs[|jobs| - 1]];
    }
  }

  lemma PrefixOfSorted(s: seq<Job>, n: nat)
    requires n <= |s| && SortedDesc(s)
    ensures SortedDesc(s[..n])
    ensures multiset(s[..n]) <= multiset(s)
  {
    assert s == s[..n] + s[n..];
    assert multiset(s) == multiset(s[..n]) + multiset(s[n..]);
    forall i, j | 0 <= i < j < n ensures CreatedAt(s[..n][i]) >= CreatedAt(s[..n][j]) {
      assert s[..n][i] == s[i] && s[..n][j] == s[j];
    }
  }

  lemma MembersKeep(r: seq<Job>, sel: seq<Job>, statusFilter: Option<string>)
    requires multiset(r) <= multiset(sel)
    requires forall i :: 0 <= i < |sel| ==> Keep(sel[i], statusFilter)
    ensures forall i :: 0 <= i < |r| ==> Keep(r[i], statusFilter)
  {
    forall i | 0 <= i < |r| ensures Keep(r[i], statusFilter) {
      assert r[i] in multiset(r);
      assert r[i] in multiset(sel);
      var k :| 0 <= k < |sel| && sel[k] == r[i];
    }
  }

  /**
   * The listing: every job returned passes the status filter and comes from
   * the table, the result is newest first, and a non-negative limit bounds
   * its length.
   */
  lemma ListingProperties(jobs: seq<Job>, statusFilter: Option<string>, limit: int)
    ensures var r := SliceTo(SortByCreatedDesc(Select(jobs, statusFilter)), limit);
            && (forall i :: 0 <= i < |r| ==> Keep(r[i], statusFilter))
            && multiset(r) <= multiset(jobs)
            && SortedDesc(r)
            && (limit >= 0 ==> |r| <= limit)
            && (limit >= 0 ==> |r| == if limit < |Select(jobs, statusFilter)| then limit else |Select(jobs, statusFilter)|)
  {
    var sel := Select(jobs, statusFilter);
    var sorted := SortByCreatedDesc(sel);
    var r := SliceTo(sorted, limit);
    SelectKeeps(jobs, statusFilter);
    SortPermutes(sel);
    assert |sorted| == |multiset(sorted)| == |multiset(sel)| == |sel|;
    SortSorted(sel);
    PrefixOfSorted(sorted, |r|);
    assert multiset(r) <= multiset(sel);
    MembersKeep(r, sel, statusFilter);
  }

  /**
   * Nothing is lost: when the limit does not cut the listing, every job of the
   * table that passes the filter is listed, as often as it occurs in the table.
   */
  lemma ListingComplete(jobs: seq<Job>, statusFilter: Option<string>, limit: int)
    requires limit >= |Select(jobs, statusFilter)|
    ensures var r := SliceTo(SortByCreatedDesc(Select(jobs, statusFilter)), limit);
            forall x :: Keep(x, statusFilter) ==> multiset(r)[x] == multiset(jobs)[x]
  {
    var sel := Select(jobs, statusFilter);
    var sorted := SortByCreatedDesc(sel);
    SortPermutes(sel);
    assert |sorted| == |multiset(sorted)| == |multiset(sel)| == |sel|;
    assert sorted[..|sorted|] == sorted;
    assert SliceTo(sorted, limit) == sorted;
    SelectComplete(jobs, statusFilter);
  }

  /** With a non-empty status filter, every job listed has exactly that status. */
  lemma ListingHonoursFilter(jobs: seq<Job>, status: string, limit: int)
    requires status != ""
    ensures var r := SliceTo(SortByCreatedDesc(Select(jobs, Some(status))), limit);
            forall i :: 0 <= i < |r| ==> HasStatus(r[i], status)
  {
    ListingProperties(jobs, Some(status), limit);
  }

  /** The filtering loop of `list_jobs`: the jobs passing the status filter, in order. */
  method FilterJobs(all: seq<Job>, statusFilter: Option<string>) returns (kept: seq<Job>)
    ensures kept == Select(all, statusFilter)
  {
    kept := [];
    var i := 0;
    while i < |all|
      invariant 0 <= i <= |all|
      invariant kept == Select(all[..i], statusFilter)
    {
      var job := all[i];
      SelectSnoc(all, i, statusFilter);
      if Keep(job, statusFilter) {
        kept := kept + [job];
      }
      i := i + 1;
    }
    assert all[..|all|] == all;
  }

  /**
   * `_jobs`: the job dictionaries by id, and the order in which the ids were
   * first inserted (the order `_jobs.items()` visits them).
   */
  class JobTable {
    var jobs: map<string, Job>
    var order: seq<string>

    ghost predicate Valid()
      reads this
    {
      && (forall id :: id in jobs <==> id in order)
      && (forall i, j :: 0 <= i < j < |order| ==> order[i] != order[j])
    }

    /** The jobs in iteration order. */
    function Jobs(): seq<Job>
      reads this
      requires Valid()
    {
      seq(|order|, i requires 0 <= i < |order| && Valid() reads this => jobs[order[i]])
    }

    constructor()
      ensures Valid() && jobs == map[] && order == []
    {
      jobs := map[];
      order := [];
    }

    /**
     * `_jobs[job_id] = job`: a new id goes to the end of the iteration
     * order, an existing one keeps its place.
     */
    method Put(id: string, job: Job)
      requires Valid()
      modifies this
      ensures Valid()
      ensures jobs == old(jobs)[id := job]
      ensures order == if id in old(jobs) then old(order) else old(order) + [id]
    {
      if id !in jobs {
        order := order + [id];
      }
      jobs := jobs[id := job];
    }

    /**
     * `_set`: merges the given fields into the job (a missing id raises
     * `KeyError` and changes nothing), then stores `_progress_for` of the
     * merged job under "progress". When that raises, the merge has already
     * happened and "progress" is whatever the merge left.
     */
    method Set(id: string, kw: map<string, Value>) returns (outcome: SetOutcome)
      requires Valid()
      modifies this
      ensures Valid() && order == old(order)
      ensures id !in old(jobs) ==> outcome == MissingJob && jobs == old(jobs)
      ensures id in old(jobs) ==>
                var merged := old(jobs)[id] + kw;
                match ProgressFor(merged)
                case Some(p) => outcome == Updated && jobs == old(jobs)[id := merged["progress" := Num(p)]]
                case None => outcome == ProgressTypeError && jobs == old(jobs)[id := merged]
    {
      if id !in jobs {
        return MissingJob;
      }
      var merged := jobs[id] + kw;
      jobs := jobs[id := merged];
      var p := ProgressFor(merged);
      if p.None? {
        return ProgressTypeError;
      }
      jobs := jobs[id := merged["progress" := Num(p.value)]];
      outcome := Updated;
    }

    /**
     * The kernel of `list_jobs`: the jobs passing the status filter, in
     * table order, sorted newest first (stably), then cut by `[:limit]`.
     */
    method ListJobs(statusFilter: Option<string>, limit: int) returns (result: seq<Job>)
      requires Valid()
      ensures result == SliceTo(SortByCreatedDesc(Select(Jobs(), statusFilter)), limit)
    {
      var kept := FilterJobs(Jobs(), statusFilter);
      result := SliceTo(SortByCreatedDesc(kept), limit);
    }
  }

  /**
   * A merge overwrites exactly the given fields and keeps every other one;
   * "progress" then holds the recomputed percentage.
   */
  lemma MergeOverwrites(job: Job, kw: map<string, Value>, p: real)
    ensures var r := (job + kw)["progress" := Num(p)];
            && r.Keys == job.Keys + kw.Keys + {"progress"}
            && r["progress"] == Num(p)
            && (forall k :: k in kw && k != "progress" ==> r[k] == kw[k])
            && (forall k :: k in job && k !in kw && k != "progress" ==> r[k] == job[k])
  {
  }
}
