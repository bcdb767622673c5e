/**
  How the re-rendering job catches up while publishers, editors of text and new chapters go on:
  everything stale is either in the hands of the sweep under way or will be found by a later one.
 */
module Backlog {
  import opened Prelude
  import opened Rerender

  // --------------------------------------------------------------- what is owed

  function StaleSet(s: State): set<ChapterId> {
    set c | c in s.bodies && Stale(s, c)
  }

  function Chapters(rows: seq<Row>): set<ChapterId> {
    set row | row in rows :: row.chapter
  }

  /** A row scanned at the revision that is still current. */
  predicate UpToDate(s: State, row: Row) {
    row.novel in s.novels && row.rev == s.novels[row.novel].rev
  }

  /** The sweep under way has still to write the chapter, with the current revision. */
  ghost predicate InHand(s: State, c: ChapterId) {
    exists w, row :: w in s.workers && s.workers[w].Sweeping? && row in s.workers[w].rows && row.chapter == c
                     && UpToDate(s, row)
  }

  /** Stale bodies that no sweep has in hand. */
  ghost function Waiting(s: State): set<ChapterId> {
    set c | c in s.bodies && Stale(s, c) && !InHand(s, c)
  }

  /** A publisher that read its revision before the last edit, and may yet stamp its chapter with it. */
  predicate Outdated(s: State, p: Worker) {
    !p.Sweeping? && p.chapter in s.bodies && s.bodies[p.chapter].novel in s.novels
    && p.rev < s.novels[s.bodies[p.chapter].novel].rev
  }

  function Behind(s: State): set<WorkerId> {
    set w | w in s.workers && Outdated(s, s.workers[w])
  }

  ghost function Owed(s: State): nat {
    |Waiting(s)| + |Behind(s)|
  }

  // ----------------------------------------------------------------- one step

  function Scanned(step: Step): nat {
    if step.BeginSweep? then |step.rows| else 0
  }

  function Added(step: Step): nat {
    if step.AddChapter? then 1 else 0
  }

  /** The rows a sweep gives up with this step. */
  function Dropped(s: State, step: Step): nat {
    if step.Leave? && step.w in s.workers && s.workers[step.w].Sweeping? then |s.workers[step.w].rows| else 0
  }

  lemma OneMoreAtMost<T>(a: set<T>, b: set<T>, x: T)
    requires a <= b + {x}
    ensures |a| <= |b| + 1
  {
    SubsetCardinality(a, b + {x});
  }

  lemma OneLess<T>(a: set<T>, b: set<T>, x: T)
    requires a <= b - {x} && x in b
    ensures |a| <= |b| - 1
  {
    SubsetCardinality(a, b - {x});
  }

  lemma {:induction false} ChaptersCount(rows: seq<Row>)
    ensures |Chapters(rows)| <= |rows|
    ensures OnePerChapter(rows) ==> |Chapters(rows)| == |rows|
  {
    if rows != [] {
      var n := |rows| - 1;
      ChaptersCount(rows[..n]);
      assert rows == rows[..n] + [rows[n]];
      assert Chapters(rows) == Chapters(rows[..n]) + {rows[n].chapter};
      if OnePerChapter(rows) {
        assert rows[n].chapter !in Chapters(rows[..n]);
      }
    } else {
      assert Chapters(rows) == {};
    }
  }

  /** Sweeps and revisions as they were: the same chapters are in hand. */
  lemma SameHands(s: State, s': State)
    requires s'.novels == s.novels
    requires forall w :: w in s.workers && s.workers[w].Sweeping? ==> w in s'.workers && s'.workers[w].Sweeping?
    requires forall w :: w in s'.workers && s'.workers[w].Sweeping? ==>
               w in s.workers && s.workers[w].Sweeping? && s.workers[w].rows == s'.workers[w].rows
    ensures forall c :: InHand(s', c) <==> InHand(s, c)
  {
    forall c
      ensures InHand(s', c) <==> InHand(s, c)
    {
      if InHand(s, c) {
        var w, row :| w in s.workers && s.workers[w].Sweeping? && row in s.workers[w].rows && row.chapter == c
                      && UpToDate(s, row);
        assert row in s'.workers[w].rows && UpToDate(s', row);
      }
      if InHand(s', c) {
        var w, row :| w in s'.workers && s'.workers[w].Sweeping? && row in s'.workers[w].rows && row.chapter == c
                      && UpToDate(s', row);
        assert row in s.workers[w].rows && UpToDate(s, row);
      }
    }
  }

  /** Bodies are still there, with their novel. */
  ghost predicate BodiesStay(s: State, s': State) {
    forall c :: c in s.bodies ==> c in s'.bodies && s'.bodies[c].novel == s.bodies[c].novel
  }

  ghost predicate NovelsStay(s: State, s': State) {
    forall n :: n in s.novels ==> n in s'.novels && s'.novels[n] == s.novels[n]
  }

  /** Without an edit a worker is outdated after the step only if it was before. */
  lemma NobodyFallsBehind(s: State, s': State)
    requires Fresh(s) && NovelsStay(s, s') && BodiesStay(s, s')
    requires forall w :: w in s'.workers ==>
               || (w in s.workers && (s'.workers[w] == s.workers[w] || Outdated(s, s.workers[w])))
               || !Outdated(s', s'.workers[w])
    ensures Behind(s') <= Behind(s)
    ensures |Behind(s')| <= |Behind(s)|
  {
    forall w | w in Behind(s')
      ensures w in Behind(s)
    {
      assert WorkerFits(s, s.workers[w]);
    }
    SubsetCardinality(Behind(s'), Behind(s));
  }

  lemma FewerWait(s: State, s': State)
    requires forall c :: c in StaleSet(s') && !InHand(s', c) ==> c in StaleSet(s) && !InHand(s, c)
    ensures |Waiting(s')| <= |Waiting(s)|
  {
    assert forall c :: c in Waiting(s') ==> c in Waiting(s);
    SubsetCardinality(Waiting(s'), Waiting(s));
  }

  lemma OneMoreWaits(s: State, s': State, x: ChapterId)
    requires forall c :: c in StaleSet(s') && !InHand(s', c) && c != x ==> c in StaleSet(s) && !InHand(s, c)
    ensures |Waiting(s')| <= |Waiting(s)| + 1
  {
    assert forall c :: c in Waiting(s') ==> c in Waiting(s) + {x};
    OneMoreAtMost(Waiting(s'), Waiting(s), x);
  }

  lemma PublishChanges(s: State, w: WorkerId, s': State)
    requires Fresh(s) && Enabled(s, WritePublish(w)) && s' == Next(s, WritePublish(w))
    ensures forall c :: c in StaleSet(s') && c != s.workers[w].chapter ==> c in StaleSet(s)
    ensures !Outdated(s, s.workers[w]) ==> s.workers[w].chapter !in StaleSet(s')
    ensures Behind(s') <= Behind(s) - {w}
    ensures forall c :: InHand(s', c) <==> InHand(s, c)
  {
    assert WorkerFits(s, s.workers[w]);
    SameHands(s, s');
    NobodyFallsBehind(s, s');
  }

  lemma PublishKeepsOwed(s: State, w: WorkerId)
    requires Fresh(s) && Enabled(s, WritePublish(w))
    ensures Owed(Next(s, WritePublish(w))) <= Owed(s) && |Behind(Next(s, WritePublish(w)))| <= |Behind(s)|
  {
    var s', p := Next(s, WritePublish(w)), s.workers[w];
    PublishChanges(s, w, s');
    if Outdated(s, p) {
      OneLess(Behind(s'), Behind(s), w);
      OneMoreWaits(s, s', p.chapter);
    } else {
      SubsetCardinality(Behind(s'), Behind(s));
      FewerWait(s, s');
    }
  }

  lemma NothingInHand(s: State, c: ChapterId)
    requires NoSweep(s)
    ensures !InHand(s, c)
  {
  }

  lemma OwedByNobody(s: State)
    requires NoSweep(s)
    ensures Owed(s) == |StaleSet(s)| + |Behind(s)|
  {
    forall c
      ensures !InHand(s, c)
    {
      NothingInHand(s, c);
    }
    assert Waiting(s) == StaleSet(s);
  }

  lemma ScanHoldsItsRows(s: State, w: WorkerId, rows: seq<Row>, c: ChapterId)
    requires Enabled(s, BeginSweep(w, rows))
    ensures InHand(Next(s, BeginSweep(w, rows)), c) <==> c in Chapters(rows)
    ensures c in Chapters(rows) ==> c in StaleSet(s)
  {
    var s' := Next(s, BeginSweep(w, rows));
    if c in Chapters(rows) {
      var row :| row in rows && row.chapter == c;
      assert IsStaleRow(s, row) && row in s'.workers[w].rows && UpToDate(s', row);
    }
    if InHand(s', c) {
      var v, row :| v in s'.workers && s'.workers[v].Sweeping? && row in s'.workers[v].rows && row.chapter == c
                    && UpToDate(s', row);
      assert v == w;
    }
  }

  /** A scan takes its rows out of those waiting; before it, all that is stale is waiting. */
  lemma ScanTakesItsRows(s: State, w: WorkerId, rows: seq<Row>)
    requires Fresh(s) && Enabled(s, BeginSweep(w, rows))
    ensures Waiting(s) == StaleSet(s)
    ensures |Waiting(Next(s, BeginSweep(w, rows)))| + |rows| == |Waiting(s)|
    ensures |Behind(Next(s, BeginSweep(w, rows)))| <= |Behind(s)|
  {
    var s' := Next(s, BeginSweep(w, rows));
    NobodyFallsBehind(s, s');
    ChaptersCount(rows);
    forall c
      ensures !InHand(s, c) && (InHand(s', c) <==> c in Chapters(rows))
      ensures c in Chapters(rows) ==> c in StaleSet(s)
    {
      NothingInHand(s, c);
      ScanHoldsItsRows(s, w, rows, c);
    }
    TakenApart(Waiting(s), Waiting(s'), Chapters(rows));
  }

  lemma TakenApart<T>(all: set<T>, left: set<T>, taken: set<T>)
    requires left == all - taken && taken <= all
    ensures |left| + |taken| == |all|
  {
    assert all == left + taken;
  }

  /** The written chapter is stale afterwards only if its row was out of date, and nothing else is touched. */
  lemma HeadChanges(s: State, w: WorkerId, s': State, c: ChapterId)
    requires Fresh(s) && Enabled(s, WriteHead(w)) && s' == Next(s, WriteHead(w)) && c in StaleSet(s')
    ensures c in StaleSet(s)
    ensures c == s.workers[w].rows[0].chapter ==> !UpToDate(s, s.workers[w].rows[0])
  {
    assert WorkerFits(s, s.workers[w]);
    assert s.workers[w].rows[0] in s.workers[w].rows;
  }

  lemma HeadLetsGo(s: State, w: WorkerId, s': State, c: ChapterId)
    requires AtMostOneSweep(s) && Enabled(s, WriteHead(w)) && s' == Next(s, WriteHead(w)) && InHand(s, c)
    ensures InHand(s', c) || (c == s.workers[w].rows[0].chapter && UpToDate(s, s.workers[w].rows[0]))
  {
    var rows := s.workers[w].rows;
    var v, row :| v in s.workers && s.workers[v].Sweeping? && row in s.workers[v].rows && row.chapter == c
                  && UpToDate(s, row);
    assert v == w && (row == rows[0] || row in rows[1..]);
    if row in rows[1..] {
      assert row in s'.workers[w].rows && UpToDate(s', row);
    }
  }

  lemma HeadKeepsBehind(s: State, w: WorkerId)
    requires Fresh(s) && Enabled(s, WriteHead(w))
    ensures |Behind(Next(s, WriteHead(w)))| <= |Behind(s)|
  {
    NobodyFallsBehind(s, Next(s, WriteHead(w)));
  }

  lemma HeadKeepsOwed(s: State, w: WorkerId)
    requires Fresh(s) && AtMostOneSweep(s) && Enabled(s, WriteHead(w))
    ensures Owed(Next(s, WriteHead(w))) <= Owed(s) && |Behind(Next(s, WriteHead(w)))| <= |Behind(s)|
  {
    var s' := Next(s, WriteHead(w));
    HeadKeepsBehind(s, w);
    forall c | c in StaleSet(s') && !InHand(s', c)
      ensures c in StaleSet(s) && !InHand(s, c)
    {
      HeadChanges(s, w, s', c);
      if InHand(s, c) {
        HeadLetsGo(s, w, s', c);
      }
    }
    FewerWait(s, s');
  }

  lemma SweepLetsGo(s: State, w: WorkerId, s': State, c: ChapterId)
    requires Enabled(s, Leave(w)) && s.workers[w].Sweeping? && s' == Next(s, Leave(w)) && InHand(s, c)
    ensures InHand(s', c) || c in Chapters(s.workers[w].rows)
  {
    var v, row :| v in s.workers && s.workers[v].Sweeping? && row in s.workers[v].rows && row.chapter == c
                  && UpToDate(s, row);
    if v != w {
      assert row in s'.workers[v].rows && UpToDate(s', row);
    }
  }

  lemma SweepGivesUp(s: State, w: WorkerId, s': State)
    requires Enabled(s, Leave(w)) && s.workers[w].Sweeping? && s' == Next(s, Leave(w))
    ensures |Waiting(s')| <= |Waiting(s)| + |s.workers[w].rows|
  {
    var rows := s.workers[w].rows;
    ChaptersCount(rows);
    forall c | c in Waiting(s')
      ensures c in Waiting(s) + Chapters(rows)
    {
      if InHand(s, c) {
        SweepLetsGo(s, w, s', c);
      }
    }
    SubsetCardinality(Waiting(s'), Waiting(s) + Chapters(rows));
  }

  lemma LeavingKeepsBehind(s: State, w: WorkerId)
    requires Fresh(s) && Enabled(s, Leave(w))
    ensures |Behind(Next(s, Leave(w)))| <= |Behind(s)|
  {
    NobodyFallsBehind(s, Next(s, Leave(w)));
  }

  lemma LeavingKeepsOwed(s: State, w: WorkerId)
    requires Fresh(s) && Enabled(s, Leave(w))
    ensures Owed(Next(s, Leave(w))) <= Owed(s) + Dropped(s, Leave(w)) && |Behind(Next(s, Leave(w)))| <= |Behind(s)|
  {
    var s' := Next(s, Leave(w));
    LeavingKeepsBehind(s, w);
    if s.workers[w].Sweeping? {
      SweepGivesUp(s, w, s');
    } else {
      SameHands(s, s');
      FewerWait(s, s');
    }
  }

  lemma NewChapterIsOwed(s: State, step: Step)
    requires Fresh(s) && step.AddChapter? && Enabled(s, step)
    ensures Owed(Next(s, step)) <= Owed(s) + 1 && |Behind(Next(s, step))| <= |Behind(s)|
  {
    var s' := Next(s, step);
    NobodyFallsBehind(s, s');
    SameHands(s, s');
    OneMoreWaits(s, s', step.chapter);
  }

  lemma NewNovelOwesNothing(s: State, step: Step)
    requires Fresh(s) && step.AddNovel? && Enabled(s, step)
    ensures Owed(Next(s, step)) <= Owed(s) && |Behind(Next(s, step))| <= |Behind(s)|
  {
    var s' := Next(s, step);
    forall c | c in s.bodies
      ensures s.bodies[c].novel in s.novels
    {
      assert BodyFits(s, s.bodies[c]);
    }
    forall c
      ensures InHand(s', c) <==> InHand(s, c)
    {
      SameRows(s, s', c);
    }
    SubsetCardinality(Waiting(s'), Waiting(s));
    NobodyFallsBehind(s, s');
  }

  lemma SameRows(s: State, s': State, c: ChapterId)
    requires Fresh(s) && s'.workers == s.workers
    requires NovelsStay(s, s')
    ensures InHand(s', c) <==> InHand(s, c)
  {
    if InHand(s, c) {
      var w, row :| w in s.workers && s.workers[w].Sweeping? && row in s.workers[w].rows && row.chapter == c
                    && UpToDate(s, row);
      assert UpToDate(s', row);
    }
    if InHand(s', c) {
      var w, row :| w in s.workers && s.workers[w].Sweeping? && row in s.workers[w].rows && row.chapter == c
                    && UpToDate(s', row);
      assert WorkerFits(s, s.workers[w]);
      assert UpToDate(s, row);
    }
  }

  predicate Minor(step: Step) {
    step.SaveSource? || step.BeginPublish? || step.FetchSource? || step.FetchTerms? || step.FetchHead?
  }

  /** The remaining steps write no body and scan nothing. */
  lemma MinorStepChanges(s: State, step: Step, s': State)
    requires Minor(step) && Enabled(s, step) && s' == Next(s, step)
    ensures s'.novels == s.novels && StaleSet(s') == StaleSet(s) && BodiesStay(s, s')
  {
  }

  lemma MinorStepKeepsHands(s: State, step: Step, s': State)
    requires Minor(step) && Enabled(s, step) && s' == Next(s, step)
    ensures forall c :: InHand(s', c) <==> InHand(s, c)
  {
    SameHands(s, s');
  }

  lemma MinorStepKeepsBehind(s: State, step: Step, s': State)
    requires Fresh(s) && Minor(step) && Enabled(s, step) && s' == Next(s, step)
    ensures |Behind(s')| <= |Behind(s)|
  {
    NobodyFallsBehind(s, s');
  }

  lemma OtherStepOwesNoMore(s: State, step: Step)
    requires Fresh(s) && Minor(step) && Enabled(s, step)
    ensures Owed(Next(s, step)) <= Owed(s) && |Behind(Next(s, step))| <= |Behind(s)|
  {
    var s' := Next(s, step);
    MinorStepChanges(s, step, s');
    MinorStepKeepsHands(s, step, s');
    MinorStepKeepsBehind(s, step, s');
    FewerWait(s, s');
  }

  /** Without an edit no step makes a publisher outdated, nor leaves more owed than it adds or gives up. */
  lemma NextOwesNoMore(s: State, step: Step)
    requires Fresh(s) && AtMostOneSweep(s) && Enabled(s, step) && !step.EditTerms?
    ensures Owed(Next(s, step)) + Scanned(step) <= Owed(s) + Added(step) + Dropped(s, step)
    ensures |Behind(Next(s, step))| <= |Behind(s)|
  {
    match step {
      case AddNovel(_) => NewNovelOwesNothing(s, step);
      case AddChapter(_, _, _) => NewChapterIsOwed(s, step);
      case WritePublish(w) => PublishKeepsOwed(s, w);
      case BeginSweep(w, rows) => ScanTakesItsRows(s, w, rows);
      case WriteHead(w) => HeadKeepsOwed(s, w);
      case Leave(w) => LeavingKeepsOwed(s, w);
      case _ => OtherStepOwesNoMore(s, step);
    }
  }

  // ----------------------------------------------------------------- whole runs

  function AllScanned(steps: seq<Step>): nat {
    if steps == [] then 0 else Scanned(steps[0]) + AllScanned(steps[1..])
  }

  function AllAdded(steps: seq<Step>): nat {
    if steps == [] then 0 else Added(steps[0]) + AllAdded(steps[1..])
  }

  ghost function AllDropped(s: State, steps: seq<Step>): nat
    requires RunFrom(s, steps).Some?
    decreases |steps|
  {
    if steps == [] then 0 else Dropped(s, steps[0]) + AllDropped(Next(s, steps[0]), steps[1..])
  }

  predicate NoEdits(steps: seq<Step>) {
    forall step :: step in steps ==> !step.EditTerms?
  }

  lemma {:induction false} AccountFrom(s: State, steps: seq<Step>)
    requires Fresh(s) && AtMostOneSweep(s) && RunFrom(s, steps).Some? && NoEdits(steps)
    ensures Owed(RunFrom(s, steps).value) + AllScanned(steps) <= Owed(s) + AllAdded(steps) + AllDropped(s, steps)
    decreases |steps|
  {
    if steps != [] {
      assert steps[0] in steps;
      NextOwesNoMore(s, steps[0]);
      NextStaysFresh(s, steps[0]);
      NextStaysOneSweep(s, steps[0]);
      AccountFrom(Next(s, steps[0]), steps[1..]);
    }
  }

  lemma ReachableIsFit(before: seq<Step>)
    requires Run(before).Some?
    ensures Fresh(Run(before).value) && AtMostOneSweep(Run(before).value)
  {
    RunStaysFresh(before);
    StaysOneSweep(EMPTY, before);
  }

  /**
    From any reachable state, over any run without a further edit, publishers, savers, new chapters
    and sweeps interleaved: every row a sweep scans pays off one stale body or one outdated
    publisher, or was added or given up on the way. So all the scans together are bounded.
   */
  lemma ScansPayOff(before: seq<Step>, steps: seq<Step>)
    requires Run(before).Some? && RunFrom(Run(before).value, steps).Some? && NoEdits(steps)
    ensures var s := Run(before).value;
            Owed(RunFrom(s, steps).value) + AllScanned(steps) <= Owed(s) + AllAdded(steps) + AllDropped(s, steps)
  {
    ReachableIsFit(before);
    AccountFrom(Run(before).value, steps);
  }

  /** Every scan takes as many stale bodies as its batch holds. */
  ghost predicate FullScans(s: State, steps: seq<Step>, size: nat)
    requires RunFrom(s, steps).Some?
    decreases |steps|
  {
    steps != [] ==>
      && (steps[0].BeginSweep? ==>
            |steps[0].rows| == if |StaleSet(s)| < size then |StaleSet(s)| else size)
      && FullScans(Next(s, steps[0]), steps[1..], size)
  }

  function Jobs(steps: seq<Step>): nat {
    if steps == [] then 0 else (if steps[0].BeginSweep? then 1 else 0) + Jobs(steps[1..])
  }

  /** What is left of a backlog after so many full batches. */
  function Remaining(backlog: nat, size: nat, jobs: nat): nat {
    if jobs == 0 then backlog else Remaining(if backlog <= size then 0 else backlog - size, size, jobs - 1)
  }

  lemma {:induction false} EnoughJobs(backlog: nat, size: nat, jobs: nat)
    requires backlog <= jobs * size
    ensures Remaining(backlog, size, jobs) == 0
    decreases jobs
  {
    if jobs > 0 {
      assert jobs * size == (jobs - 1) * size + size;
      MulMonotone(0, jobs - 1, size);
      EnoughJobs(if backlog <= size then 0 else backlog - size, size, jobs - 1);
    }
  }

  lemma JobTakesABatch(s: State, step: Step, size: nat, quota: nat, slack: nat)
    requires Fresh(s) && step.BeginSweep? && Enabled(s, step)
    requires |step.rows| == if |StaleSet(s)| < size then |StaleSet(s)| else size
    requires Owed(s) <= quota + slack && |Behind(s)| <= slack
    ensures Owed(Next(s, step)) <= (if quota <= size then 0 else quota - size) + slack
    ensures |Behind(Next(s, step))| <= slack
  {
    ScanTakesItsRows(s, step.w, step.rows);
  }

  /** What a step leaves of the quota of stale bodies and of the slack. */
  function Quota(step: Step, size: nat, quota: nat): nat {
    if !step.BeginSweep? then quota else if quota <= size then 0 else quota - size
  }

  lemma StepKeepsQuota(s: State, step: Step, size: nat, quota: nat, slack: nat)
    requires Fresh(s) && AtMostOneSweep(s) && Enabled(s, step) && !step.EditTerms? && Dropped(s, step) == 0
    requires step.BeginSweep? ==> |step.rows| == if |StaleSet(s)| < size then |StaleSet(s)| else size
    requires Owed(s) <= quota + slack && |Behind(s)| <= slack
    ensures Owed(Next(s, step)) <= Quota(step, size, quota) + slack + Added(step)
    ensures |Behind(Next(s, step))| <= slack
  {
    if step.BeginSweep? {
      JobTakesABatch(s, step, size, quota, slack);
    } else {
      NextOwesNoMore(s, step);
    }
  }

  /** A state with its accounts: at most so many stale bodies, and so much slack. */
  ghost predicate Within(s: State, quota: nat, slack: nat) {
    Fresh(s) && AtMostOneSweep(s) && Owed(s) <= quota + slack && |Behind(s)| <= slack
  }

  lemma StepStaysWithin(s: State, step: Step, size: nat, quota: nat, slack: nat, s': State, quota': nat, slack': nat)
    requires Within(s, quota, slack) && Enabled(s, step) && !step.EditTerms? && Dropped(s, step) == 0
    requires step.BeginSweep? ==> |step.rows| == if |StaleSet(s)| < size then |StaleSet(s)| else size
    requires s' == Next(s, step) && quota' == Quota(step, size, quota) && slack' == slack + Added(step)
    ensures Within(s', quota', slack')
  {
    NextStaysFresh(s, step);
    NextStaysOneSweep(s, step);
    StepKeepsQuota(s, step, size, quota, slack);
  }

  lemma QuotaLeft(steps: seq<Step>, size: nat, quota: nat)
    requires steps != []
    ensures Remaining(Quota(steps[0], size, quota), size, Jobs(steps[1..])) == Remaining(quota, size, Jobs(steps))
  {
  }

  lemma {:induction false} JobsCatchUp(s: State, steps: seq<Step>, size: nat, quota: nat, slack: nat)
    requires Within(s, quota, slack) && RunFrom(s, steps).Some? && NoEdits(steps)
    requires FullScans(s, steps, size) && AllDropped(s, steps) == 0
    ensures Owed(RunFrom(s, steps).value) <= Remaining(quota, size, Jobs(steps)) + slack + AllAdded(steps)
    decreases |steps|
  {
    if steps != [] {
      var step, s', more := steps[0], Next(s, steps[0]), steps[1..];
      var quota', slack' := Quota(step, size, quota), slack + Added(step);
      assert step in steps;
      StepStaysWithin(s, step, size, quota, slack, s', quota', slack');
      JobsCatchUp(s', more, size, quota', slack');
      QuotaLeft(steps, size, quota);
    }
  }

  /**
    The job catches up. From any reachable state, let no further edit come, but any publishes, saves
    and new chapters, and let every job run scan a full batch and finish it. Once the batches cover
    what was waiting, and no sweep is under way, the stale bodies are no more than the publishers
    that were outdated at the start and the chapters added since: none, if there were neither.
   */
  lemma SweepsCatchUp(before: seq<Step>, steps: seq<Step>, size: nat)
    requires Run(before).Some? && RunFrom(Run(before).value, steps).Some? && NoEdits(steps)
    requires var s := Run(before).value;
             && FullScans(s, steps, size) && AllDropped(s, steps) == 0
             && |Waiting(s)| <= Jobs(steps) * size && NoSweep(RunFrom(s, steps).value)
    ensures var s, end := Run(before).value, RunFrom(Run(before).value, steps).value;
            && |StaleSet(end)| <= |Behind(s)| + AllAdded(steps)
            && (Behind(s) == {} && AllAdded(steps) == 0 ==> StaleSet(end) == {})
  {
    var s, end := Run(before).value, RunFrom(Run(before).value, steps).value;
    ReachableIsFit(before);
    EnoughJobs(|Waiting(s)|, size, Jobs(steps));
    JobsCatchUp(s, steps, size, |Waiting(s)|, |Behind(s)|);
    OwedByNobody(end);
  }

  // ------------------------------------------------------- a job run on its own

  /** One row of an undisturbed sweep: load the terms, render, write. */
  function SweepRow(s: State, row: Row): State
    requires row.chapter in s.bodies && row.novel in s.novels
  {
    var n := s.novels[row.novel];
    s.(bodies := s.bodies[row.chapter := Swept(s.bodies[row.chapter], row, Loaded(n.rev, n.terms))])
  }

  /** The rows come from one scan. */
  ghost predicate Batch(s: State, rows: seq<Row>) {
    OnePerChapter(rows) && forall row :: row in rows ==> IsStaleRow(s, row)
  }

  /**
    After a sweep of `rows`: those bodies are renderings of their saved source with the current terms,
    the others untouched.
   */
  ghost predicate SweptAll(s: State, s': State, rows: seq<Row>) {
    && s'.novels == s.novels && s'.workers == s.workers && s'.bodies.Keys == s.bodies.Keys
    && forall c :: c in s.bodies ==>
         if c in Chapters(rows) then
           && s.bodies[c].novel in s.novels
           && s'.bodies[c].stamp == s.novels[s.bodies[c].novel].rev
           && s'.bodies[c].html == Html(s.bodies[c].source, s.novels[s.bodies[c].novel].terms)
           && s'.bodies[c].novel == s.bodies[c].novel && s'.bodies[c].source == s.bodies[c].source
         else s'.bodies[c] == s.bodies[c]
  }

  predicate Known(s: State, rows: seq<Row>) {
    forall row :: row in rows ==> row.chapter in s.bodies && row.novel in s.novels
  }

  /** The rows one after another. */
  function SweptBy(s: State, rows: seq<Row>): (t: State)
    requires Known(s, rows)
    ensures t.bodies.Keys == s.bodies.Keys && t.novels == s.novels && t.workers == s.workers
    ensures forall c :: c in s.bodies ==> t.bodies[c].novel == s.bodies[c].novel
  {
    if rows == [] then s
    else SweepRow(SweptBy(s, rows[..|rows| - 1]), rows[|rows| - 1])
  }

  lemma OneMoreSwept(was: State, s: State, rows: seq<Row>, k: nat)
    requires Batch(was, rows) && k < |rows| && SweptAll(was, s, rows[..k])
    ensures rows[k].chapter in s.bodies && rows[k].novel in s.novels
    ensures s.bodies[rows[k].chapter].stamp < rows[k].rev
    ensures SweptAll(was, SweepRow(s, rows[k]), rows[..k + 1])
  {
    var row := rows[k];
    assert IsStaleRow(was, row);
    assert rows[..k + 1] == rows[..k] + [row];
    assert Chapters(rows[..k + 1]) == Chapters(rows[..k]) + {row.chapter};
    assert row.chapter !in Chapters(rows[..k]);
  }

  class Sweeper {
    var state: State

    constructor (state: State)
      ensures this.state == state
    {
      this.state := state;
    }

    /** The job's loop over the rows its scan returned, nothing else coming in between. */
    method Sweep(rows: seq<Row>) returns (processed: nat)
      requires Batch(state, rows) && Known(state, rows)
      modifies this
      ensures state == SweptBy(old(state), rows)
      ensures SweptAll(old(state), state, rows) && processed == |rows|
    {
      processed := 0;
      for k := 0 to |rows|
        invariant processed == k
        invariant SweptAll(old(state), state, rows[..k])
        invariant state == SweptBy(old(state), rows[..k])
      {
        OneMoreSwept(old(state), state, rows, k);
        assert rows[..k + 1][..k] == rows[..k];
        var stamp := state.bodies[rows[k].chapter].stamp;
        state := SweepRow(state, rows[k]);
        if stamp < rows[k].rev {
          processed := processed + 1;
        }
      }
      assert rows[..|rows|] == rows;
    }
  }

  /** Two statements for each row. */
  function RowSteps(s: State, w: WorkerId, rows: seq<Row>): seq<Step>
    requires Known(s, rows)
  {
    if rows == [] then []
    else
      var n := |rows| - 1;
      RowSteps(s, w, rows[..n]) + [FetchHead(w, s.novels[rows[n].novel].terms)] + [WriteHead(w)]
  }

  /** The state with a sweep that has these rows to go. */
  function During(s: State, w: WorkerId, rest: seq<Row>): State {
    s.(workers := s.workers[w := Sweeping(rest, None)])
  }

  lemma RowIsTwoSteps(s: State, w: WorkerId, steps: seq<Step>, t: State, rest: seq<Row>)
    requires RunFrom(s, steps) == Some(During(t, w, rest)) && rest != [] && Known(t, rest)
    ensures var row := rest[0];
            row in rest && RunFrom(s, steps + [FetchHead(w, t.novels[row.novel].terms)] + [WriteHead(w)])
              == Some(During(SweepRow(t, row), w, rest[1..]))
  {
    var row := rest[0];
    var fetch := FetchHead(w, t.novels[row.novel].terms);
    var t1 := Next(During(t, w, rest), fetch);
    RunOneMoreFrom(s, steps, fetch);
    RunOneMoreFrom(s, steps + [fetch], WriteHead(w));
    assert Next(t1, WriteHead(w)).workers == t.workers[w := Sweeping(rest[1..], None)];
  }

  /** The scan and the first rows of a job. */
  function Opening(s: State, w: WorkerId, rows: seq<Row>, k: nat): seq<Step>
    requires Known(s, rows) && k <= |rows|
  {
    [BeginSweep(w, rows)] + RowSteps(s, w, rows[..k])
  }

  lemma OpeningGrows(s: State, w: WorkerId, rows: seq<Row>, j: nat, k: nat)
    requires Known(s, rows) && k == j + 1 <= |rows|
    ensures Opening(s, w, rows, k)
              == Opening(s, w, rows, j) + [FetchHead(w, s.novels[rows[j].novel].terms)] + [WriteHead(w)]
    ensures SweptBy(s, rows[..k]) == SweepRow(SweptBy(s, rows[..j]), rows[j])
    ensures rows[j..][0] == rows[j] && rows[j..][1..] == rows[k..]
  {
    assert rows[..k][..j] == rows[..j];
  }

  lemma ScanOpens(s: State, w: WorkerId, rows: seq<Row>)
    requires Batch(s, rows) && Known(s, rows) && NoSweep(s) && w !in s.workers
    ensures RunFrom(s, Opening(s, w, rows, 0)) == Some(During(s, w, rows))
  {
    assert Opening(s, w, rows, 0) == [BeginSweep(w, rows)] && [BeginSweep(w, rows)][1..] == [];
  }

  lemma {:induction false} RowsRun(s: State, w: WorkerId, rows: seq<Row>, k: nat)
    requires Batch(s, rows) && Known(s, rows) && NoSweep(s) && w !in s.workers && k <= |rows|
    ensures RunFrom(s, Opening(s, w, rows, k)) == Some(During(SweptBy(s, rows[..k]), w, rows[k..]))
  {
    if k == 0 {
      ScanOpens(s, w, rows);
      assert rows[..0] == [] && rows[0..] == rows;
    } else {
      var j := k - 1;
      RowsRun(s, w, rows, j);
      OpeningGrows(s, w, rows, j, k);
      RowIsTwoSteps(s, w, Opening(s, w, rows, j), SweptBy(s, rows[..j]), rows[j..]);
    }
  }

  /** A whole job: the scan, its rows, and the end of its transaction. */
  function JobRun(s: State, w: WorkerId, rows: seq<Row>): seq<Step>
    requires Known(s, rows)
  {
    Opening(s, w, rows, |rows|) + [Leave(w)]
  }

  lemma AllRowsRun(s: State, w: WorkerId, rows: seq<Row>)
    requires Batch(s, rows) && Known(s, rows) && NoSweep(s) && w !in s.workers
    ensures RunFrom(s, Opening(s, w, rows, |rows|)) == Some(During(SweptBy(s, rows), w, []))
  {
    RowsRun(s, w, rows, |rows|);
    assert rows[..|rows|] == rows && rows[|rows|..] == [];
  }

  /** Such a job is a run of the machine. */
  lemma SweepIsARun(s: State, w: WorkerId, rows: seq<Row>)
    requires Batch(s, rows) && Known(s, rows) && NoSweep(s) && w !in s.workers
    ensures RunFrom(s, JobRun(s, w, rows)) == Some(SweptBy(s, rows))
  {
    AllRowsRun(s, w, rows);
    RunOneMoreFrom(s, Opening(s, w, rows, |rows|), Leave(w));
    SweepEnds(SweptBy(s, rows), w);
  }

  lemma SweepEnds(t: State, w: WorkerId)
    requires w !in t.workers
    ensures Enabled(During(t, w, []), Leave(w)) && Next(During(t, w, []), Leave(w)) == t
  {
    assert t.workers[w := Sweeping([], None)] - {w} == t.workers;
  }

  lemma {:induction false} RowStepsOnlyWrite(s: State, w: WorkerId, rows: seq<Row>)
    requires Known(s, rows)
    ensures forall step :: step in RowSteps(s, w, rows) ==> step.FetchHead? || step.WriteHead?
  {
    if rows != [] {
      RowStepsOnlyWrite(s, w, rows[..|rows| - 1]);
    }
  }

  lemma {:induction false} NothingCounted(steps: seq<Step>)
    requires forall step :: step in steps ==> step.FetchHead? || step.WriteHead? || step.Leave?
    ensures AllScanned(steps) == 0 && AllAdded(steps) == 0 && NoEdits(steps)
  {
    if steps != [] {
      assert steps[0] in steps;
      NothingCounted(steps[1..]);
    }
  }

  /** A run that gives up nothing: only its last step leaves, with no rows to go. */
  lemma {:induction false} NothingDropped(s: State, steps: seq<Step>, last: Step)
    requires RunFrom(s, steps + [last]).Some? && forall step :: step in steps ==> !step.Leave?
    requires RunFrom(s, steps).Some? && Dropped(RunFrom(s, steps).value, last) == 0
    ensures AllDropped(s, steps + [last]) == 0
    decreases |steps|
  {
    if steps == [] {
      assert ([] + [last])[1..] == [];
    } else {
      assert (steps + [last])[1..] == steps[1..] + [last];
      assert steps[0] in steps;
      NothingDropped(Next(s, steps[0]), steps[1..], last);
    }
  }

  lemma OpeningOnlyWrites(s: State, w: WorkerId, rows: seq<Row>)
    requires Known(s, rows)
    ensures JobRun(s, w, rows)[0] == BeginSweep(w, rows)
    ensures forall step :: step in JobRun(s, w, rows)[1..] ==> step.FetchHead? || step.WriteHead? || step.Leave?
    ensures forall step :: step in Opening(s, w, rows, |rows|) ==> !step.Leave?
  {
    RowStepsOnlyWrite(s, w, rows[..|rows|]);
    assert JobRun(s, w, rows)[1..] == RowSteps(s, w, rows[..|rows|]) + [Leave(w)];
  }

  lemma JobCounts(s: State, w: WorkerId, rows: seq<Row>)
    requires Batch(s, rows) && Known(s, rows) && NoSweep(s) && w !in s.workers
    ensures RunFrom(s, JobRun(s, w, rows)) == Some(SweptBy(s, rows)) && NoEdits(JobRun(s, w, rows))
    ensures AllScanned(JobRun(s, w, rows)) == |rows| && AllAdded(JobRun(s, w, rows)) == 0
    ensures AllDropped(s, JobRun(s, w, rows)) == 0
  {
    var job := JobRun(s, w, rows);
    SweepIsARun(s, w, rows);
    OpeningOnlyWrites(s, w, rows);
    NothingCounted(job[1..]);
    assert job == [job[0]] + job[1..];
    AllRowsRun(s, w, rows);
    NothingDropped(s, Opening(s, w, rows, |rows|), Leave(w));
  }

  lemma SameWorkersOwe(s: State, s': State, n: nat)
    requires NoSweep(s) && s'.workers == s.workers && s'.novels == s.novels && s'.bodies.Keys == s.bodies.Keys
    requires forall c :: c in s.bodies ==> s'.bodies[c].novel == s.bodies[c].novel
    requires Owed(s') + n <= Owed(s)
    ensures |StaleSet(s')| + n <= |StaleSet(s)|
  {
    OwedByNobody(s);
    OwedByNobody(s');
    forall w | w in s.workers
      ensures Outdated(s', s.workers[w]) == Outdated(s, s.workers[w])
    {
    }
    assert Behind(s') == Behind(s);
  }

  /** The undisturbed case: a job on its own, from any reachable state, takes its whole batch off the stale bodies. */
  lemma SweepOnItsOwn(before: seq<Step>, s: State, w: WorkerId, rows: seq<Row>)
    requires Run(before) == Some(s)
    requires Batch(s, rows) && Known(s, rows) && NoSweep(s) && w !in s.workers
    ensures |StaleSet(SweptBy(s, rows))| + |rows| <= |StaleSet(s)|
  {
    JobCounts(s, w, rows);
    ScansPayOff(before, JobRun(s, w, rows));
    SameWorkersOwe(s, SweptBy(s, rows), |rows|);
  }
}
