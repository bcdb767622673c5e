/**
  The rendered-body cache: publishers, editors and a background job read and write bodies in
  separate statements, each seeing whatever is committed by then. A stamp says which revision
  of the glossary a body may be trusted up to.
 */
module Rerender {
  import opened Prelude
  import R = Render

  type NovelId = int
  type ChapterId = int
  type WorkerId = int

  /** The current revision and terms; `past` remembers the terms at every revision that was ever current. */
  datatype Novel = Novel(rev: nat, terms: seq<R.Term>, past: map<nat, seq<R.Term>>)

  /** How a body was last rendered: from which source, with the terms of which revision, read in which order. */
  datatype Making = Making(source: string, termsRev: nat, terms: seq<R.Term>)

  datatype Body = Body(novel: NovelId, source: string, html: string, stamp: nat, made: Option<Making>)

  /** A stale row as the job's scan returned it. */
  datatype Row = Row(chapter: ChapterId, novel: NovelId, rev: nat, source: string)

  datatype Loaded = Loaded(termsRev: nat, terms: seq<R.Term>)

  /** A transaction between statements. */
  datatype Worker =
    | ReadRevision(chapter: ChapterId, rev: nat)
    | ReadSource(chapter: ChapterId, rev: nat, source: string)
    | ReadTerms(chapter: ChapterId, rev: nat, source: string, loaded: Loaded)
    | Sweeping(rows: seq<Row>, head: Option<Loaded>)

  datatype State = State(novels: map<NovelId, Novel>, bodies: map<ChapterId, Body>, workers: map<WorkerId, Worker>)

  function Html(source: string, terms: seq<R.Term>): string {
    R.Html(R.Parse(source), R.ByKey(terms))
  }

  predicate Stale(s: State, chapter: ChapterId) {
    chapter in s.bodies && s.bodies[chapter].novel in s.novels
      && s.bodies[chapter].stamp < s.novels[s.bodies[chapter].novel].rev
  }

  /** The scan joins by primary keys, so it returns a chapter once. */
  ghost predicate OnePerChapter(rows: seq<Row>) {
    forall i, j :: 0 <= i < j < |rows| ==> rows[i].chapter != rows[j].chapter
  }

  // --------------------------------------------------------------- the steps

  datatype Step =
    | AddNovel(novel: NovelId)
    | AddChapter(chapter: ChapterId, novel: NovelId, source: string)
    | EditTerms(novel: NovelId, terms: seq<R.Term>, bumps: nat)
    | SaveSource(chapter: ChapterId, source: string)
    | BeginPublish(w: WorkerId, chapter: ChapterId)
    | FetchSource(w: WorkerId)
    | FetchTerms(w: WorkerId, terms: seq<R.Term>)
    | WritePublish(w: WorkerId)
    | BeginSweep(w: WorkerId, rows: seq<Row>)
    | FetchHead(w: WorkerId, terms: seq<R.Term>)
    | WriteHead(w: WorkerId)
    | Leave(w: WorkerId)

  predicate IsStaleRow(s: State, row: Row) {
    Stale(s, row.chapter) && row.novel == s.bodies[row.chapter].novel && row.rev == s.novels[row.novel].rev
    && row.source == s.bodies[row.chapter].source
  }

  /** The job's lock is free: no sweep is under way. */
  predicate NoSweep(s: State) {
    forall v :: v in s.workers ==> !s.workers[v].Sweeping?
  }

  /** Term queries return the current rows in any order; an edit bumps the revision at least once, with the edit. */
  ghost predicate Enabled(s: State, step: Step) {
    match step
    case AddNovel(novel) => novel !in s.novels
    case AddChapter(chapter, novel, _) => chapter !in s.bodies && novel in s.novels
    case EditTerms(novel, _, bumps) => novel in s.novels && bumps >= 1
    case SaveSource(chapter, _) => chapter in s.bodies
    case BeginPublish(w, chapter) => w !in s.workers && chapter in s.bodies && s.bodies[chapter].novel in s.novels
    case FetchSource(w) => w in s.workers && s.workers[w].ReadRevision? && s.workers[w].chapter in s.bodies
    case FetchTerms(w, terms) =>
      && w in s.workers && s.workers[w].ReadSource? && s.workers[w].chapter in s.bodies
      && s.bodies[s.workers[w].chapter].novel in s.novels
      && R.SameRows(terms, s.novels[s.bodies[s.workers[w].chapter].novel].terms)
    case WritePublish(w) => w in s.workers && s.workers[w].ReadTerms? && s.workers[w].chapter in s.bodies
    case BeginSweep(w, rows) =>
      && w !in s.workers && NoSweep(s)
      && OnePerChapter(rows) && forall row :: row in rows ==> IsStaleRow(s, row)
    case FetchHead(w, terms) =>
      && w in s.workers && s.workers[w].Sweeping? && s.workers[w].rows != [] && s.workers[w].head.None?
      && s.workers[w].rows[0].novel in s.novels
      && R.SameRows(terms, s.novels[s.workers[w].rows[0].novel].terms)
    case WriteHead(w) =>
      w in s.workers && s.workers[w].Sweeping? && s.workers[w].rows != [] && s.workers[w].head.Some?
      && s.workers[w].rows[0].chapter in s.bodies
    case Leave(w) => w in s.workers
  }

  /** The publisher's write: unconditional. */
  function Published(b: Body, rev: nat, source: string, loaded: Loaded): Body {
    b.(html := Html(source, loaded.terms), stamp := rev, made := Some(Making(source, loaded.termsRev, loaded.terms)))
  }

  /** The job's write: only over an older stamp, and stamped with the revision its scan saw. */
  function Swept(b: Body, row: Row, loaded: Loaded): Body {
    if b.stamp < row.rev then Published(b, row.rev, row.source, loaded) else b
  }

  function Next(s: State, step: Step): State
    requires Enabled(s, step)
  {
    match step
    case AddNovel(novel) => s.(novels := s.novels[novel := Novel(0, [], map[0 := []])])
    case AddChapter(chapter, novel, source) => s.(bodies := s.bodies[chapter := Body(novel, source, "", 0, None)])
    case EditTerms(novel, terms, bumps) =>
      var n := s.novels[novel];
      s.(novels := s.novels[novel := Novel(n.rev + bumps, terms, n.past[n.rev + bumps := terms])])
    case SaveSource(chapter, source) => s.(bodies := s.bodies[chapter := s.bodies[chapter].(source := source)])
    case BeginPublish(w, chapter) =>
      s.(workers := s.workers[w := ReadRevision(chapter, s.novels[s.bodies[chapter].novel].rev)])
    case FetchSource(w) =>
      var p := s.workers[w];
      s.(workers := s.workers[w := ReadSource(p.chapter, p.rev, s.bodies[p.chapter].source)])
    case FetchTerms(w, terms) =>
      var p := s.workers[w];
      s.(workers :=
        s.workers[w := ReadTerms(p.chapter, p.rev, p.source, Loaded(s.novels[s.bodies[p.chapter].novel].rev, terms))])
    case WritePublish(w) =>
      var p := s.workers[w];
      s.(bodies := s.bodies[p.chapter := Published(s.bodies[p.chapter], p.rev, p.source, p.loaded)],
         workers := s.workers - {w})
    case BeginSweep(w, rows) => s.(workers := s.workers[w := Sweeping(rows, None)])
    case FetchHead(w, terms) =>
      var p := s.workers[w];
      s.(workers := s.workers[w := Sweeping(p.rows, Some(Loaded(s.novels[p.rows[0].novel].rev, terms)))])
    case WriteHead(w) =>
      var p := s.workers[w];
      var row := p.rows[0];
      s.(bodies := s.bodies[row.chapter := Swept(s.bodies[row.chapter], row, p.head.value)],
         workers := s.workers[w := Sweeping(p.rows[1..], None)])
    case Leave(w) => s.(workers := s.workers - {w})
  }

  /** A run from a state, or none when some step could not be taken. */
  ghost function RunFrom(s: State, steps: seq<Step>): Option<State>
    decreases |steps|
  {
    if steps == [] then Some(s)
    else if Enabled(s, steps[0]) then RunFrom(Next(s, steps[0]), steps[1..])
    else None
  }

  const EMPTY := State(map[], map[], map[])

  ghost function Run(steps: seq<Step>): Option<State> { RunFrom(EMPTY, steps) }

  // ----------------------------------------------------------- the invariant

  predicate NovelFits(n: Novel) {
    n.rev in n.past && n.past[n.rev] == n.terms && forall r | r in n.past :: r <= n.rev
  }

  /** The terms really were those of that revision, and the revision is no older than `atLeast`. */
  ghost predicate LoadedFits(n: Novel, loaded: Loaded, atLeast: nat) {
    atLeast <= loaded.termsRev <= n.rev && loaded.termsRev in n.past
      && R.SameRows(loaded.terms, n.past[loaded.termsRev])
  }

  ghost predicate BodyFits(s: State, b: Body) {
    && b.novel in s.novels
    && match b.made
       case None => b.html == "" && b.stamp == 0
       case Some(m) =>
         && LoadedFits(s.novels[b.novel], Loaded(m.termsRev, m.terms), b.stamp)
         && b.html == Html(m.source, m.terms)
  }

  /** The chapter is there, and so is its novel. */
  predicate Housed(s: State, chapter: ChapterId) {
    chapter in s.bodies && s.bodies[chapter].novel in s.novels
  }

  ghost predicate WorkerFits(s: State, w: Worker) {
    match w
    case ReadRevision(chapter, rev) => Housed(s, chapter) && rev <= s.novels[s.bodies[chapter].novel].rev
    case ReadSource(chapter, rev, _) => Housed(s, chapter) && rev <= s.novels[s.bodies[chapter].novel].rev
    case ReadTerms(chapter, rev, _, loaded) => Housed(s, chapter)
      && LoadedFits(s.novels[s.bodies[chapter].novel], loaded, rev)
    case Sweeping(rows, head) =>
      && OnePerChapter(rows)
      && (forall row :: row in rows ==>
            Housed(s, row.chapter) && row.novel == s.bodies[row.chapter].novel && row.rev <= s.novels[row.novel].rev)
      && (head.Some? ==>
           rows != [] && rows[0].novel in s.novels && LoadedFits(s.novels[rows[0].novel], head.value, rows[0].rev))
  }

  ghost predicate Fresh(s: State) {
    && (forall n :: n in s.novels ==> NovelFits(s.novels[n]))
    && (forall c :: c in s.bodies ==> BodyFits(s, s.bodies[c]))
    && (forall w :: w in s.workers ==> WorkerFits(s, s.workers[w]))
  }

  /** Novels only move forward, and bodies stay with their novel. */
  ghost predicate Forward(s: State, s': State) {
    && (forall n :: n in s.novels ==>
          && n in s'.novels && s.novels[n].rev <= s'.novels[n].rev
          && (forall r :: r in s.novels[n].past && r <= s.novels[n].rev ==>
               r in s'.novels[n].past && s'.novels[n].past[r] == s.novels[n].past[r]))
    && (forall c :: c in s.bodies ==> c in s'.bodies && s'.bodies[c].novel == s.bodies[c].novel)
  }

  lemma NextMovesForward(s: State, step: Step)
    requires Fresh(s) && Enabled(s, step)
    ensures Forward(s, Next(s, step))
  {
  }

  lemma WorkerStaysFit(s: State, s': State, w: Worker)
    requires Fresh(s) && Forward(s, s') && WorkerFits(s, w)
    ensures WorkerFits(s', w)
  {
    if w.Sweeping? {
      if w.head.Some? {
        assert w.rows[0] in w.rows;
      }
      forall row | row in w.rows
        ensures Housed(s', row.chapter) && row.novel == s'.bodies[row.chapter].novel
                  && row.rev <= s'.novels[row.novel].rev
      {
      }
    }
  }

  lemma BodyStaysFit(s: State, s': State, b: Body)
    requires Fresh(s) && Forward(s, s') && BodyFits(s, b)
    ensures BodyFits(s', b)
  {
  }

  /** The worker a step leaves behind is in order. */
  lemma MovedWorkerFits(s: State, step: Step)
    requires Fresh(s) && Enabled(s, step)
    requires step.BeginPublish? || step.FetchSource? || step.FetchTerms? || step.BeginSweep? || step.FetchHead?
               || step.WriteHead?
    ensures WorkerFits(s, Next(s, step).workers[step.w])
  {
    match step
    case BeginPublish(w, chapter) => assert BodyFits(s, s.bodies[chapter]);
    case FetchSource(w) => assert WorkerFits(s, s.workers[w]);
    case FetchTerms(w, _) =>
      assert WorkerFits(s, s.workers[w]);
      assert BodyFits(s, s.bodies[s.workers[w].chapter]);
    case BeginSweep(w, rows) =>
    case FetchHead(w, _) =>
      assert WorkerFits(s, s.workers[w]);
      assert s.workers[w].rows[0] in s.workers[w].rows;
    case WriteHead(w) =>
      assert WorkerFits(s, s.workers[w]);
  }

  /** The body a step writes is in order. */
  lemma WrittenBodyFits(s: State, step: Step, chapter: ChapterId)
    requires Fresh(s) && Enabled(s, step)
    requires chapter in Next(s, step).bodies
    ensures BodyFits(s, Next(s, step).bodies[chapter])
  {
    if chapter in s.bodies {
      assert BodyFits(s, s.bodies[chapter]);
    }
    if step.WritePublish? {
      assert WorkerFits(s, s.workers[step.w]);
    } else if step.WriteHead? {
      assert WorkerFits(s, s.workers[step.w]);
      assert s.workers[step.w].rows[0] in s.workers[step.w].rows;
    }
  }

  lemma NovelsStayFit(s: State, step: Step)
    requires Fresh(s) && Enabled(s, step)
    ensures forall n :: n in Next(s, step).novels ==> NovelFits(Next(s, step).novels[n])
  {
    forall n | n in Next(s, step).novels
      ensures NovelFits(Next(s, step).novels[n])
    {
      assert n in s.novels ==> NovelFits(s.novels[n]);
    }
  }

  lemma WorkerAfterFits(s: State, step: Step, w: WorkerId)
    requires Fresh(s) && Enabled(s, step) && w in Next(s, step).workers
    ensures WorkerFits(s, Next(s, step).workers[w])
  {
    if w in s.workers && Next(s, step).workers[w] == s.workers[w] {
      assert WorkerFits(s, s.workers[w]);
    } else {
      MovedWorkerFits(s, step);
    }
  }

  lemma NextStaysFresh(s: State, step: Step)
    requires Fresh(s) && Enabled(s, step)
    ensures Fresh(Next(s, step))
  {
    var s' := Next(s, step);
    NextMovesForward(s, step);
    NovelsStayFit(s, step);
    forall c | c in s'.bodies
      ensures BodyFits(s', s'.bodies[c])
    {
      WrittenBodyFits(s, step, c);
      BodyStaysFit(s, s', s'.bodies[c]);
    }
    forall w | w in s'.workers
      ensures WorkerFits(s', s'.workers[w])
    {
      WorkerAfterFits(s, step, w);
      WorkerStaysFit(s, s', s'.workers[w]);
    }
  }

  lemma {:induction false} StaysFresh(s: State, steps: seq<Step>)
    requires Fresh(s) && RunFrom(s, steps).Some?
    ensures Fresh(RunFrom(s, steps).value)
    decreases |steps|
  {
    if steps != [] {
      NextStaysFresh(s, steps[0]);
      StaysFresh(Next(s, steps[0]), steps[1..]);
    }
  }

  lemma RunStaysFresh(steps: seq<Step>)
    requires Run(steps).Some?
    ensures Fresh(Run(steps).value)
  {
    StaysFresh(EMPTY, steps);
  }

  ghost predicate AtMostOneSweep(s: State) {
    forall v, w :: v in s.workers && w in s.workers && s.workers[v].Sweeping? && s.workers[w].Sweeping? ==> v == w
  }

  lemma {:induction false} StaysOneSweep(s: State, steps: seq<Step>)
    requires AtMostOneSweep(s) && RunFrom(s, steps).Some?
    ensures AtMostOneSweep(RunFrom(s, steps).value)
    decreases |steps|
  {
    if steps != [] {
      NextStaysOneSweep(s, steps[0]);
      StaysOneSweep(Next(s, steps[0]), steps[1..]);
    }
  }

  lemma NextStaysOneSweep(s: State, step: Step)
    requires AtMostOneSweep(s) && Enabled(s, step)
    ensures AtMostOneSweep(Next(s, step))
  {
  }

  /** The body is what its making says, under a stamp no newer than its terms. */
  ghost predicate Truthful(b: Body, n: Novel) {
    && b.made.Some?
    && b.stamp <= b.made.value.termsRev <= n.rev
    && b.html == Html(b.made.value.source, b.made.value.terms)
    && (b.stamp == n.rev ==> R.SameRows(b.made.value.terms, n.terms))
  }

  lemma FittingIsTruthful(s: State, b: Body)
    requires BodyFits(s, b) && b.made.Some? && NovelFits(s.novels[b.novel])
    ensures Truthful(b, s.novels[b.novel])
  {
  }

  /**
    A truthful current body is the rendering with the novel's own terms, when no two of them show
    differently under one key.
   */
  lemma CurrentTerms(b: Body, n: Novel)
    requires Truthful(b, n) && b.stamp == n.rev && R.TitlesAgree(n.terms)
    ensures b.html == Html(b.made.value.source, n.terms)
  {
    R.TermOrderIsHarmless(n.terms, b.made.value.terms, b.made.value.source);
  }

  /**
    Over every interleaving of edits, saves, publishes and sweeps: a rendered body's stamp
    never exceeds the revision of the terms it was rendered with; so a rendered body stamped
    with the current revision is the rendering, of the source its writer read, with exactly
    the current terms — whatever order they were read in, unless two titles share a key.
   */
  lemma StampsNeverOverstate(steps: seq<Step>, chapter: ChapterId)
    requires Run(steps).Some? && chapter in Run(steps).value.bodies && Run(steps).value.bodies[chapter].made.Some?
    ensures var s := Run(steps).value;
            var b := s.bodies[chapter];
            && b.novel in s.novels && Truthful(b, s.novels[b.novel])
            && (b.stamp == s.novels[b.novel].rev && R.TitlesAgree(s.novels[b.novel].terms) ==>
                  b.html == Html(b.made.value.source, s.novels[b.novel].terms))
  {
    RunStaysFresh(steps);
    var s := Run(steps).value;
    var b := s.bodies[chapter];
    assert BodyFits(s, b) && NovelFits(s.novels[b.novel]);
    FittingIsTruthful(s, b);
    if b.stamp == s.novels[b.novel].rev && R.TitlesAgree(s.novels[b.novel].terms) {
      CurrentTerms(b, s.novels[b.novel]);
    }
  }

  // ------------------------------------------------ what the stamp does not say

  /** The step saves or publishes the chapter. */
  predicate Touches(s: State, step: Step, chapter: ChapterId) {
    match step
    case SaveSource(c, _) => c == chapter
    case WritePublish(w) => w in s.workers && s.workers[w].ReadTerms? && s.workers[w].chapter == chapter
    case _ => false
  }

  /** A run in which nobody saves or publishes the chapter. */
  ghost function Aside(s: State, steps: seq<Step>, chapter: ChapterId): Option<State>
    decreases |steps|
  {
    if steps == [] then Some(s)
    else if Enabled(s, steps[0]) && !Touches(s, steps[0], chapter) then Aside(Next(s, steps[0]), steps[1..], chapter)
    else None
  }

  lemma {:induction false} AsideIsARun(s: State, steps: seq<Step>, chapter: ChapterId)
    requires Aside(s, steps, chapter).Some?
    ensures RunFrom(s, steps) == Aside(s, steps, chapter)
    decreases |steps|
  {
    if steps != [] {
      AsideIsARun(Next(s, steps[0]), steps[1..], chapter);
    }
  }

  /** The chapter shows a rendering of this source. */
  predicate Shows(s: State, chapter: ChapterId, source: string) {
    chapter in s.bodies && s.bodies[chapter].made.Some? && s.bodies[chapter].made.value.source == source
  }

  /** A sweep still to write another source for the chapter, from a scan newer than the stamp. */
  ghost predicate Overtakes(w: Worker, chapter: ChapterId, stamp: nat, source: string) {
    w.Sweeping? && exists row :: row in w.rows && row.chapter == chapter && row.rev > stamp && row.source != source
  }

  /** The saved source is the one shown, and no sweep in flight overtakes it. */
  ghost predicate Secure(s: State, chapter: ChapterId, source: string) {
    && chapter in s.bodies && s.bodies[chapter].source == source
    && forall w :: w in s.workers ==> !Overtakes(s.workers[w], chapter, s.bodies[chapter].stamp, source)
  }

  lemma BegunSweepAgrees(s: State, rows: seq<Row>, chapter: ChapterId, source: string)
    requires chapter in s.bodies && s.bodies[chapter].source == source
    requires forall row :: row in rows ==> IsStaleRow(s, row)
    ensures !Overtakes(Sweeping(rows, None), chapter, s.bodies[chapter].stamp, source)
  {
  }

  lemma FewerRowsOvertakeLess(rows: seq<Row>, head: Option<Loaded>, chapter: ChapterId, stamp: nat, later: nat,
          source: string)
    requires rows != [] && stamp <= later && !Overtakes(Sweeping(rows, head), chapter, stamp, source)
    ensures !Overtakes(Sweeping(rows[1..], None), chapter, later, source)
  {
    forall row | row in rows[1..] && row.chapter == chapter && row.rev > later
      ensures row.source == source
    {
      assert row in rows;
    }
  }

  lemma WrittenHeadStaysSecure(s: State, w: WorkerId, chapter: ChapterId, source: string)
    requires Enabled(s, WriteHead(w)) && Secure(s, chapter, source) && Shows(s, chapter, source)
    ensures Secure(Next(s, WriteHead(w)), chapter, source) && Shows(Next(s, WriteHead(w)), chapter, source)
  {
    var s' := Next(s, WriteHead(w));
    var p := s.workers[w];
    var stamp, later := s.bodies[chapter].stamp, s'.bodies[chapter].stamp;
    assert !Overtakes(p, chapter, stamp, source);
    assert p.rows[0] in p.rows;
    assert stamp <= later;
    FewerRowsOvertakeLess(p.rows, p.head, chapter, stamp, later, source);
    forall v | v in s'.workers
      ensures !Overtakes(s'.workers[v], chapter, later, source)
    {
      if v != w {
        assert !Overtakes(s.workers[v], chapter, stamp, source);
      }
    }
  }

  lemma OtherStepStaysSecure(s: State, step: Step, chapter: ChapterId, source: string)
    requires Enabled(s, step) && !Touches(s, step, chapter) && !step.WriteHead?
    requires Secure(s, chapter, source) && Shows(s, chapter, source)
    ensures Secure(Next(s, step), chapter, source) && Shows(Next(s, step), chapter, source)
  {
    var s' := Next(s, step);
    assert s'.bodies[chapter] == s.bodies[chapter];
    forall v | v in s'.workers
      ensures !Overtakes(s'.workers[v], chapter, s'.bodies[chapter].stamp, source)
    {
      if v in s.workers {
        assert !Overtakes(s.workers[v], chapter, s.bodies[chapter].stamp, source);
      }
      if step.BeginSweep? && v == step.w {
        BegunSweepAgrees(s, step.rows, chapter, source);
      }
    }
  }

  lemma {:induction false} SecureIsKept(s: State, steps: seq<Step>, chapter: ChapterId, source: string)
    requires Secure(s, chapter, source) && Shows(s, chapter, source) && Aside(s, steps, chapter).Some?
    ensures Shows(Aside(s, steps, chapter).value, chapter, source)
    decreases |steps|
  {
    if steps != [] {
      if steps[0].WriteHead? {
        WrittenHeadStaysSecure(s, steps[0].w, chapter, source);
      } else {
        OtherStepStaysSecure(s, steps[0], chapter, source);
      }
      SecureIsKept(Next(s, steps[0]), steps[1..], chapter, source);
    }
  }

  /** The steps, none of them a save or publish of the chapter, bring the state to another. */
  ghost predicate LeadsTo(s: State, steps: seq<Step>, chapter: ChapterId, s': State) {
    Aside(s, steps, chapter) == Some(s')
  }

  lemma {:induction false} LeadsOn(s: State, first: seq<Step>, chapter: ChapterId, s': State, second: seq<Step>,
        s'': State)
    requires LeadsTo(s, first, chapter, s') && LeadsTo(s', second, chapter, s'')
    ensures LeadsTo(s, first + second, chapter, s'')
    decreases |first|
  {
    if first == [] {
      assert first + second == second;
    } else {
      assert (first + second)[1..] == first[1..] + second;
      LeadsOn(Next(s, first[0]), first[1..], chapter, s', second, s'');
    }
  }

  lemma OneStepLeads(s: State, step: Step, chapter: ChapterId)
    requires Enabled(s, step) && !Touches(s, step, chapter)
    ensures LeadsTo(s, [step], chapter, Next(s, step))
  {
    assert [step][1..] == [];
  }

  /** A sweep in flight with the terms for its first row in hand. */
  lemma HeadIsLoaded(s: State, w: WorkerId, chapter: ChapterId) returns (steps: seq<Step>, s': State)
    requires Fresh(s) && w in s.workers && s.workers[w].Sweeping? && s.workers[w].rows != []
    ensures LeadsTo(s, steps, chapter, s')
    ensures Fresh(s') && s'.bodies == s.bodies && Enabled(s', WriteHead(w)) && s'.workers[w].rows == s.workers[w].rows
  {
    var row := s.workers[w].rows[0];
    assert WorkerFits(s, s.workers[w]) && row in s.workers[w].rows;
    steps, s' := [], s;
    if s.workers[w].head.None? {
      var fetch := FetchHead(w, s.novels[row.novel].terms);
      steps, s' := [fetch], Next(s, fetch);
      NextStaysFresh(s, fetch);
      OneStepLeads(s, fetch, chapter);
    }
  }

  /** What writing the first row does for a chapter. */
  ghost predicate WroteHead(s: State, w: WorkerId, s': State, chapter: ChapterId)
    requires w in s.workers && s.workers[w].Sweeping? && s.workers[w].rows != [] && chapter in s.bodies
  {
    var row := s.workers[w].rows[0];
    && w in s'.workers && s'.workers[w] == Sweeping(s.workers[w].rows[1..], None)
    && chapter in s'.bodies
    && (row.chapter != chapter ==> s'.bodies[chapter] == s.bodies[chapter])
    && (row.chapter == chapter && s.bodies[chapter].stamp < row.rev ==> Shows(s', chapter, row.source))
  }

  lemma WritesItsRow(s: State, loaded: State, w: WorkerId, chapter: ChapterId)
    requires w in s.workers && s.workers[w].Sweeping? && s.workers[w].rows != [] && chapter in s.bodies
    requires loaded.bodies == s.bodies && Enabled(loaded, WriteHead(w)) && loaded.workers[w].rows == s.workers[w].rows
    ensures WroteHead(s, w, Next(loaded, WriteHead(w)), chapter)
  {
  }

  lemma HeadIsWritten(s: State, w: WorkerId, chapter: ChapterId) returns (steps: seq<Step>, s': State)
    requires Fresh(s) && w in s.workers && s.workers[w].Sweeping? && s.workers[w].rows != [] && chapter in s.bodies
    ensures LeadsTo(s, steps, chapter, s')
    ensures Fresh(s') && WroteHead(s, w, s', chapter)
  {
    var fetch, loaded := HeadIsLoaded(s, w, chapter);
    s' := Next(loaded, WriteHead(w));
    steps := fetch + [WriteHead(w)];
    NextStaysFresh(loaded, WriteHead(w));
    WritesItsRow(s, loaded, w, chapter);
    OneStepLeads(loaded, WriteHead(w), chapter);
    LeadsOn(s, fetch, chapter, loaded, [WriteHead(w)], s');
  }

  lemma RowsAreApart(s: State, w: WorkerId, i: nat)
    requires Fresh(s) && w in s.workers && s.workers[w].Sweeping? && 0 < i < |s.workers[w].rows|
    ensures s.workers[w].rows[0].chapter != s.workers[w].rows[i].chapter
  {
    assert WorkerFits(s, s.workers[w]);
  }

  /** Row `i` of a sweep in flight is for the chapter, newer than its stamp, with this source. */
  predicate Ahead(s: State, w: WorkerId, i: nat, chapter: ChapterId, source: string) {
    && w in s.workers && s.workers[w].Sweeping? && i < |s.workers[w].rows|
    && chapter in s.bodies && s.workers[w].rows[i].chapter == chapter
    && s.bodies[chapter].stamp < s.workers[w].rows[i].rev && s.workers[w].rows[i].source == source
  }

  lemma NextInLine(s: State, w: WorkerId, i: nat, chapter: ChapterId, source: string, s': State, j: nat)
    requires Fresh(s) && i == j + 1 && Ahead(s, w, i, chapter, source) && WroteHead(s, w, s', chapter)
    ensures Ahead(s', w, j, chapter, source)
  {
    RowsAreApart(s, w, i);
    assert s.workers[w].rows[1..][j] == s.workers[w].rows[i];
  }

  lemma HeadArrives(s: State, w: WorkerId, chapter: ChapterId, source: string, s': State)
    requires Ahead(s, w, 0, chapter, source) && WroteHead(s, w, s', chapter)
    ensures Shows(s', chapter, source)
  {
  }

  /** A sweep in flight comes to its row for the chapter, and writes it. */
  lemma {:induction false} SweepArrives(s: State, w: WorkerId, i: nat, chapter: ChapterId, source: string)
    returns (steps: seq<Step>, end: State)
    requires Fresh(s) && Ahead(s, w, i, chapter, source)
    ensures LeadsTo(s, steps, chapter, end) && Shows(end, chapter, source)
    decreases i
  {
    steps, end := HeadIsWritten(s, w, chapter);
    if i == 0 {
      HeadArrives(s, w, chapter, source, end);
    } else {
      var j, first, s' := i - 1, steps, end;
      NextInLine(s, w, i, chapter, source, s', j);
      var rest;
      rest, end := SweepArrives(s', w, j, chapter, source);
      LeadsOn(s, first, chapter, s', rest, end);
      steps := first + rest;
    }
  }

  /** A sweep under way can give up. */
  lemma SweepLeaves(s: State, chapter: ChapterId) returns (steps: seq<Step>, s': State)
    requires Fresh(s) && AtMostOneSweep(s)
    ensures LeadsTo(s, steps, chapter, s') && Fresh(s') && NoSweep(s') && s'.bodies == s.bodies
  {
    steps, s' := [], s;
    if !NoSweep(s) {
      var v :| v in s.workers && s.workers[v].Sweeping?;
      steps, s' := [Leave(v)], Next(s, Leave(v));
      NextStaysFresh(s, Leave(v));
      OneStepLeads(s, Leave(v), chapter);
    }
  }

  /** Any later edit and sweep write the saved source. */
  lemma EditAndSweepRepair(s: State, chapter: ChapterId) returns (steps: seq<Step>, end: State)
    requires Fresh(s) && NoSweep(s) && chapter in s.bodies
    ensures LeadsTo(s, steps, chapter, end) && Shows(end, chapter, s.bodies[chapter].source)
  {
    var b := s.bodies[chapter];
    assert BodyFits(s, b);
    var n := s.novels[b.novel];
    assert NovelFits(n);
    var edit := EditTerms(b.novel, n.terms, 1);
    var s1 := Next(s, edit);
    NextStaysFresh(s, edit);
    var w := Unused(s.workers.Keys);
    var row := Row(chapter, b.novel, n.rev + 1, b.source);
    assert IsStaleRow(s1, row);
    var begin := BeginSweep(w, [row]);
    var s2 := Next(s1, begin);
    NextStaysFresh(s1, begin);
    var more;
    more, end := SweepArrives(s2, w, 0, chapter, b.source);
    OneStepLeads(s, edit, chapter);
    OneStepLeads(s1, begin, chapter);
    LeadsOn(s1, [begin], chapter, s2, more, end);
    LeadsOn(s, [edit], chapter, s1, [begin] + more, end);
    steps := [edit] + ([begin] + more);
  }

  lemma SweepRepairs(s: State, chapter: ChapterId) returns (steps: seq<Step>, end: State)
    requires Fresh(s) && AtMostOneSweep(s) && chapter in s.bodies
    ensures LeadsTo(s, steps, chapter, end) && Shows(end, chapter, s.bodies[chapter].source)
  {
    var first, s' := SweepLeaves(s, chapter);
    var more;
    more, end := EditAndSweepRepair(s', chapter);
    LeadsOn(s, first, chapter, s', more, end);
    steps := first + more;
  }

  /**
    What a publish can rely on. Whatever runs afterwards short of another save or publish of the
    chapter, the published source stays the one shown exactly when, at the moment of the write,
    it is still the saved source and no sweep in flight holds the chapter with another source
    from a scan newer than the publisher's revision.
   */
  lemma PublishIsKeptIff(steps: seq<Step>, w: WorkerId)
    requires Run(steps).Some? && Enabled(Run(steps).value, WritePublish(w))
    ensures var p := Run(steps).value.workers[w];
            var s := Next(Run(steps).value, WritePublish(w));
            (forall later :: Aside(s, later, p.chapter).Some? ==>
              Shows(Aside(s, later, p.chapter).value, p.chapter, p.source))
            <==> Secure(s, p.chapter, p.source)
  {
    var p := Run(steps).value.workers[w];
    var s := Next(Run(steps).value, WritePublish(w));
    RunStaysFresh(steps);
    NextStaysFresh(Run(steps).value, WritePublish(w));
    StaysOneSweep(EMPTY, steps);
    NextStaysOneSweep(Run(steps).value, WritePublish(w));
    KeptIff(s, p.chapter, p.source);
  }

  lemma KeptIff(s: State, chapter: ChapterId, source: string)
    requires Fresh(s) && AtMostOneSweep(s) && Shows(s, chapter, source)
    ensures (forall later :: Aside(s, later, chapter).Some? ==> Shows(Aside(s, later, chapter).value, chapter, source))
            <==> Secure(s, chapter, source)
  {
    if Secure(s, chapter, source) {
      forall later | Aside(s, later, chapter).Some?
        ensures Shows(Aside(s, later, chapter).value, chapter, source)
      {
        SecureIsKept(s, later, chapter, source);
      }
    } else if s.bodies[chapter].source != source {
      var later, end := SweepRepairs(s, chapter);
      assert !Shows(Aside(s, later, chapter).value, chapter, source);
    } else {
      var v :| v in s.workers && Overtakes(s.workers[v], chapter, s.bodies[chapter].stamp, source);
      var rows := s.workers[v].rows;
      var row :| row in rows && row.chapter == chapter && row.rev > s.bodies[chapter].stamp && row.source != source;
      var i :| 0 <= i < |rows| && rows[i] == row;
      var later, end := SweepArrives(s, v, i, chapter, row.source);
      assert !Shows(Aside(s, later, chapter).value, chapter, source);
    }
  }

  lemma {:induction false} RunOneMoreFrom(s: State, steps: seq<Step>, step: Step)
    requires RunFrom(s, steps).Some? && Enabled(RunFrom(s, steps).value, step)
    ensures RunFrom(s, steps + [step]) == Some(Next(RunFrom(s, steps).value, step))
    decreases |steps|
  {
    if steps == [] {
      assert ([] + [step])[1..] == [];
    } else {
      assert (steps + [step])[1..] == steps[1..] + [step];
      RunOneMoreFrom(Next(s, steps[0]), steps[1..], step);
    }
  }

  lemma RunOneMore(steps: seq<Step>, step: Step)
    requires Run(steps).Some? && Enabled(Run(steps).value, step)
    ensures Run(steps + [step]) == Some(Next(Run(steps).value, step))
  {
    RunOneMoreFrom(EMPTY, steps, step);
  }

  lemma RunTo(steps: seq<Step>, step: Step, s: State, s': State)
    requires Run(steps) == Some(s) && Enabled(s, step)
    requires Next(s, step).novels == s'.novels && Next(s, step).bodies == s'.bodies
               && Next(s, step).workers == s'.workers
    ensures Run(steps + [step]) == Some(s')
  {
    RunOneMore(steps, step);
  }

  lemma EditedTwice(older: string) returns (steps: seq<Step>)
    ensures Run(steps) == Some(State(
              map[1 := Novel(2, [], map[0 := [], 1 := [], 2 := []])], map[1 := Body(1, older, "", 0, None)],
              map[10 := ReadRevision(1, 1)]))
  {
    var bodies := map[1 := Body(1, older, "", 0, None)];
    var none: seq<R.Term> := [];
    assert map[0 := none][1 := none] == map[0 := none, 1 := none];
    assert map[0 := none, 1 := none][2 := none] == map[0 := none, 1 := none, 2 := none];
    var n1 := map[1 := Novel(1, [], map[0 := [], 1 := []])];
    var n2 := map[1 := Novel(2, [], map[0 := [], 1 := [], 2 := []])];
    var s1 := State(map[1 := Novel(0, [], map[0 := []])], map[], map[]);
    var s2 := s1.(bodies := bodies);
    RunTo([], AddNovel(1), State(map[], map[], map[]), s1);
    RunTo([] + [AddNovel(1)], AddChapter(1, 1, older), s1, s2);
    steps := [] + [AddNovel(1)] + [AddChapter(1, 1, older)];
    RunTo(steps, EditTerms(1, [], 1), s2, State(n1, bodies, map[]));
    steps := steps + [EditTerms(1, [], 1)];
    RunTo(steps, BeginPublish(10, 1), State(n1, bodies, map[]), State(n1, bodies, map[10 := ReadRevision(1, 1)]));
    steps := steps + [BeginPublish(10, 1)];
    RunTo(steps, EditTerms(1, [], 1), State(n1, bodies, map[10 := ReadRevision(1, 1)]),
      State(n2, bodies, map[10 := ReadRevision(1, 1)]));
    steps := steps + [EditTerms(1, [], 1)];
  }

  lemma ScannedThenSaved(older: string, newer: string) returns (steps: seq<Step>)
    ensures Run(steps) == Some(State(
              map[1 := Novel(2, [], map[0 := [], 1 := [], 2 := []])], map[1 := Body(1, newer, "", 0, None)],
              map[10 := ReadSource(1, 1, newer), 20 := Sweeping([Row(1, 1, 2, older)], None)]))
  {
    var novels := map[1 := Novel(2, [], map[0 := [], 1 := [], 2 := []])];
    var b1, b2 := map[1 := Body(1, older, "", 0, None)], map[1 := Body(1, newer, "", 0, None)];
    var sweep := Sweeping([Row(1, 1, 2, older)], None);
    var w1 := map[10 := ReadRevision(1, 1), 20 := sweep];
    var s1 := State(novels, b1, map[10 := ReadRevision(1, 1)]);
    steps := EditedTwice(older);
    RunTo(steps, BeginSweep(20, [Row(1, 1, 2, older)]), s1, State(novels, b1, w1));
    steps := steps + [BeginSweep(20, [Row(1, 1, 2, older)])];
    RunTo(steps, SaveSource(1, newer), State(novels, b1, w1), State(novels, b2, w1));
    steps := steps + [SaveSource(1, newer)];
    var w2 := map[10 := ReadSource(1, 1, newer), 20 := sweep];
    RunTo(steps, FetchSource(10), State(novels, b2, w1), State(novels, b2, w2));
    steps := steps + [FetchSource(10)];
  }

  /**
    A reachable publish that is not kept: one that read its revision before an
    edit, and its source after a save, is overwritten by a sweep that read the old source in
    between — and the result is stamped current, so no later sweep repairs it.
   */
  lemma PublishCanBeLost(older: string, newer: string) returns (steps: seq<Step>)
    requires older != newer
    ensures Run(steps).Some? && WritePublish(10) in steps
    ensures var s := Run(steps).value;
            && 1 in s.bodies && s.bodies[1].source == newer && s.bodies[1].made.Some?
            && s.bodies[1].made.value.source == older
            && !Stale(s, 1) && 10 !in s.workers
  {
    steps := ScannedThenSaved(older, newer);
    RunOneMore(steps, FetchTerms(10, []));
    steps := steps + [FetchTerms(10, [])];
    RunOneMore(steps, WritePublish(10));
    steps := steps + [WritePublish(10)];
    RunOneMore(steps, FetchHead(20, []));
    steps := steps + [FetchHead(20, [])];
    RunOneMore(steps, WriteHead(20));
    steps := steps + [WriteHead(20)];
  }
}
