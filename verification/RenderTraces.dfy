/** What ends up in a body, traced back through the statements that read it, with anything else committed in between. */
module RenderTraces {
  import opened Prelude
  import opened Rerender
  import R = Render

  /** The worker that takes the step. */
  predicate By(step: Step, w: WorkerId) {
    match step
    case BeginPublish(v, _) => v == w
    case FetchSource(v) => v == w
    case FetchTerms(v, _) => v == w
    case WritePublish(v) => v == w
    case BeginSweep(v, _) => v == w
    case FetchHead(v, _) => v == w
    case WriteHead(v) => v == w
    case Leave(v) => v == w
    case _ => false
  }

  /** Others' steps lead from one state to another. */
  ghost predicate Meanwhile(s: State, steps: seq<Step>, w: WorkerId, s': State) {
    RunFrom(s, steps) == Some(s') && forall i :: 0 <= i < |steps| ==> !By(steps[i], w)
  }

  lemma OtherStepLeaves(s: State, step: Step, w: WorkerId)
    requires Enabled(s, step) && w in s.workers && !By(step, w)
    ensures w in Next(s, step).workers && Next(s, step).workers[w] == s.workers[w]
    ensures forall c :: c in s.bodies ==>
              c in Next(s, step).bodies && Next(s, step).bodies[c].novel == s.bodies[c].novel
  {
  }

  lemma {:induction false} OthersLeave(s: State, steps: seq<Step>, w: WorkerId, s': State)
    requires Meanwhile(s, steps, w, s') && w in s.workers
    ensures w in s'.workers && s'.workers[w] == s.workers[w]
    ensures forall c :: c in s.bodies ==> c in s'.bodies && s'.bodies[c].novel == s.bodies[c].novel
    decreases |steps|
  {
    if steps != [] {
      assert !By(steps[0], w);
      OtherStepLeaves(s, steps[0], w);
      OthersLeave(Next(s, steps[0]), steps[1..], w, s');
    }
  }

  /**
    A publish, whatever is committed between its statements: the body becomes the rendering of the source
    saved when it read the source, with the terms current when it read those, and is stamped with the
    revision current when it began. Nothing else changes with the write, the saved source included.
   */
  lemma PublishWrites(s: State, w: WorkerId, chapter: ChapterId, a: seq<Step>, atSource: State, b: seq<Step>,
        atTerms: State, terms: seq<R.Term>, c: seq<Step>, atWrite: State)
    requires Enabled(s, BeginPublish(w, chapter))
    requires Meanwhile(Next(s, BeginPublish(w, chapter)), a, w, atSource) && Enabled(atSource, FetchSource(w))
    requires Meanwhile(Next(atSource, FetchSource(w)), b, w, atTerms) && Enabled(atTerms, FetchTerms(w, terms))
    requires Meanwhile(Next(atTerms, FetchTerms(w, terms)), c, w, atWrite) && Enabled(atWrite, WritePublish(w))
    ensures chapter in s.bodies && s.bodies[chapter].novel in s.novels
    ensures chapter in atSource.bodies && chapter in atTerms.bodies && chapter in atWrite.bodies
    ensures atTerms.bodies[chapter].novel in atTerms.novels
    ensures R.SameRows(terms, atTerms.novels[atTerms.bodies[chapter].novel].terms)
    ensures var source := atSource.bodies[chapter].source;
            var html := R.Html(R.Parse(source), R.ByKey(terms));
            var made := Some(Making(source, atTerms.novels[atTerms.bodies[chapter].novel].rev, terms));
            var stamp := s.novels[s.bodies[chapter].novel].rev;
            var body := Body(s.bodies[chapter].novel, atWrite.bodies[chapter].source, html, stamp, made);
            Next(atWrite, WritePublish(w))
              == State(atWrite.novels, atWrite.bodies[chapter := body], atWrite.workers - {w})
  {
    OthersLeave(Next(s, BeginPublish(w, chapter)), a, w, atSource);
    OthersLeave(Next(atSource, FetchSource(w)), b, w, atTerms);
    OthersLeave(Next(atTerms, FetchTerms(w, terms)), c, w, atWrite);
  }

  /**
    A sweep's write of one row, whatever is committed since its scan: over an older stamp, the rendering of
    the source the scan saw, with the terms current when they were read, stamped with the revision the
    scan saw; over a stamp as new, nothing. Either way the sweep goes on to its next row.
   */
  lemma SweepWrites(s: State, w: WorkerId, rows: seq<Row>, i: nat, atTerms: State, terms: seq<R.Term>, c: seq<Step>,
        atWrite: State)
    requires Enabled(s, BeginSweep(w, rows)) && i < |rows|
    requires w in atTerms.workers && atTerms.workers[w] == Sweeping(rows[i..], None)
    requires Enabled(atTerms, FetchHead(w, terms))
    requires Meanwhile(Next(atTerms, FetchHead(w, terms)), c, w, atWrite) && Enabled(atWrite, WriteHead(w))
    ensures var chapter := rows[i].chapter;
            chapter in s.bodies && s.bodies[chapter].novel in s.novels && chapter in atWrite.bodies
    ensures s.bodies[rows[i].chapter].novel in atTerms.novels
    ensures R.SameRows(terms, atTerms.novels[s.bodies[rows[i].chapter].novel].terms)
    ensures var chapter := rows[i].chapter;
            var source, stamp := s.bodies[chapter].source, s.novels[s.bodies[chapter].novel].rev;
            var was := atWrite.bodies[chapter];
            var html := R.Html(R.Parse(source), R.ByKey(terms));
            var made := Some(Making(source, atTerms.novels[s.bodies[chapter].novel].rev, terms));
            var body := if was.stamp < stamp then Body(was.novel, was.source, html, stamp, made) else was;
            Next(atWrite, WriteHead(w))
              == State(atWrite.novels, atWrite.bodies[chapter := body],
                       atWrite.workers[w := Sweeping(rows[i + 1..], None)])
  {
    assert rows[i] in rows && rows[i..][0] == rows[i] && rows[i..][1..] == rows[i + 1..];
    OthersLeave(Next(atTerms, FetchHead(w, terms)), c, w, atWrite);
  }

  /** In every reachable state a chapter is waiting for the job exactly when its stamp is not the current revision. */
  lemma StaleIffBehind(steps: seq<Step>, chapter: ChapterId)
    requires Run(steps).Some? && chapter in Run(steps).value.bodies
    ensures var s := Run(steps).value;
            && s.bodies[chapter].novel in s.novels
            && (Stale(s, chapter) <==> s.bodies[chapter].stamp != s.novels[s.bodies[chapter].novel].rev)
  {
    RunStaysFresh(steps);
    var s := Run(steps).value;
    assert BodyFits(s, s.bodies[chapter]);
  }

  /** Saving changes the saved source alone; editing the terms changes them and moves the revision on. */
  lemma EditsTakeEffect(s: State, step: Step)
    requires Enabled(s, step)
    ensures step.SaveSource? ==>
              var was := s.bodies[step.chapter];
              Next(s, step) == State(s.novels,
                s.bodies[step.chapter := Body(was.novel, step.source, was.html, was.stamp, was.made)], s.workers)
    ensures step.EditTerms? ==>
              var s' := Next(s, step);
              && s' == State(s.novels[step.novel := s'.novels[step.novel]], s.bodies, s.workers)
              && s'.novels[step.novel].terms == step.terms
              && s'.novels[step.novel].rev == s.novels[step.novel].rev + step.bumps
    ensures step.AddChapter? ==>
              Next(s, step) == State(s.novels,
                s.bodies[step.chapter := Body(step.novel, step.source, "", 0, None)], s.workers)
  {
  }
}
