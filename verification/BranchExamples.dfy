/**
 Runs of the recorder on which what is written about it does not hold: a skip not
 decided on the frame before it, a branch that loses evidence it cites, an
 instance recorded a second time.
 */
module BranchExamples {
  import opened Common
  import opened BranchMining
  import opened BranchRecords
  import Alignment

  const PAYOUTS := Place("stripe", "dashboard.stripe.com")
  const SHEET := Place("sheets", "payouts")
  const MAIL := Place("mail", "bank")

  function At(place: Place, id: string, screen: Screen): Frame { Frame(id, "", place.app, place.doc, place, screen) }

  const FAILED := Screen(["Payout failed"], [], "")

  // ------------------------------- a skip not decided on the frame before it

  const ROUTINE := [Step("Check the payout", Some(PAYOUTS)), Step("Enter the amount", Some(SHEET))]

  /** Two frames on the payout's page, and nothing entered in the sheet. */
  const LINGERING := [At(PAYOUTS, "first", Screen([], [], "")), At(PAYOUTS, "second", FAILED)]

  lemma SidesOfSkip()
    ensures Canon(ROUTINE) == [CanonStep(0, PAYOUTS), CanonStep(1, SHEET)]
    ensures Runs(LINGERING) == [Run(PAYOUTS, 0)]
  {
    assert CanonTo(ROUTINE, 0) == [] && CanonTo(ROUTINE, 1) == [CanonStep(0, PAYOUTS)];
    assert RunsTo(LINGERING, 0) == [] && RunsTo(LINGERING, 1) == [Run(PAYOUTS, 0)];
  }

  lemma AlignedSkip(sim: Alignment.Similarity, gap: real)
    requires sim(0, 0) > sim(1, 0) && sim(0, 0) >= 2.0 * gap
    ensures Alignment.Traced(2, 1, sim, gap) == [Alignment.Column(Some(0), Some(0)), Alignment.Column(Some(1), None)]
  {
    assert Alignment.Best(0, 0, sim, gap) == 0.0;
    assert Alignment.Best(1, 0, sim, gap) == gap && Alignment.Best(0, 1, sim, gap) == gap;
    assert Alignment.Best(2, 0, sim, gap) == gap + gap;
    assert Alignment.Best(1, 1, sim, gap) == sim(0, 0);
    assert Alignment.Best(2, 1, sim, gap) == sim(0, 0) + gap;
    assert Alignment.Traced(1, 1, sim, gap) == [Alignment.Column(Some(0), Some(0))];
  }

  lemma SpansOfOne(cols: seq<Col>, n: nat)
    requires n < |cols| && cols[n].verdict == Diverges && (forall c | 0 <= c < |cols| && c != n :: cols[c].verdict == Agrees)
    ensures Spans(cols) == [Span(n, n)]
  {
    hide SpansTo, Disjoint, CoversDiverging, InBounds, AllUndecided;
    SpansStay(cols, 0, n);
    NoSpans(cols);
    SpansNext(cols, n);
    SpansStay(cols, n + 1, |cols|);
  }

  lemma NoSpans(cols: seq<Col>)
    ensures SpansTo(cols, 0) == []
  {
  }

  lemma OneDetour(cols: seq<Col>, runs: seq<Run>, span: Span)
    requires Spans(cols) == [span]
    ensures Detours(cols, runs) == [span]
  {
    assert MergedTo(Spans(cols), 0, cols, runs) == [];
  }

  lemma ReadSkip()
    ensures Aligned([Alignment.Column(Some(0), Some(0)), Alignment.Column(Some(1), None)], ROUTINE, LINGERING)
    ensures BranchMining.Mined([Alignment.Column(Some(0), Some(0)), Alignment.Column(Some(1), None)], ROUTINE, LINGERING) == [Divergence(1, 2, 0, [])]
  {
    var al := [Alignment.Column(Some(0), Some(0)), Alignment.Column(Some(1), None)];
    SidesOfSkip();
    assert al[1..] == [al[1]] && al[1..][1..] == [];
    assert Aligned(al, ROUTINE, LINGERING);
    var cols, runs := ColsOf(al, ROUTINE, LINGERING), Runs(LINGERING);
    assert runs[0] in runs;
    assert cols == [Col(Some(0), Some(0), Agrees), Col(Some(1), None, Diverges)];
    SpansOfOne(cols, 1);
    OneDetour(cols, runs, Span(1, 1));
    DivergeOfSkip(cols, runs);
  }

  lemma DivergeOfSkip(cols: seq<Col>, runs: seq<Run>)
    requires cols == [Col(Some(0), Some(0), Agrees), Col(Some(1), None, Diverges)] && runs == [Run(PAYOUTS, 0)]
    ensures Diverge(Span(1, 1), cols, runs, 2) == Divergence(1, 2, 0, [])
  {
    hide StepsIn, RunsIn;
    assert cols[1..2] == [cols[1]] && cols[..1] == [cols[0]];
    OneColumn(cols[1], runs);
    OneColumn(cols[0], runs);
    assert Alternative(Span(1, 1), cols, runs) == [];
  }

  lemma OneColumn(col: Col, runs: seq<Run>)
    requires col.run.Some? ==> col.run.value < |runs|
    ensures StepsIn([col]) == if col.step.Some? then [col.step.value] else []
    ensures RunsInRange([col], runs)
    ensures RunsIn([col], runs) == if col.run.Some? then [col.run.value] else []
  {
    assert [col][1..] == [];
    assert StepsIn([]) == [] && RunsIn([], runs) == [];
  }

  lemma TwoColumns(c: Col, d: Col, runs: seq<Run>)
    requires (c.run.Some? ==> c.run.value < |runs|) && (d.run.Some? ==> d.run.value < |runs|)
    ensures StepsIn([c, d]) == (if c.step.Some? then [c.step.value] else []) + (if d.step.Some? then [d.step.value] else [])
    ensures RunsInRange([c, d], runs)
    ensures RunsIn([c, d], runs) == (if c.run.Some? then [c.run.value] else []) + (if d.run.Some? then [d.run.value] else [])
  {
    assert [c, d][1..] == [d];
    OneColumn(d, runs);
  }

  /** The user lingers on the payout's page and skips the sheet: the skip is decided on
      the first of the two frames, and the frame just before it is the second, whose
      screen is another. */
  lemma SkipDecidedEarlier(sim: (Place, Place) -> real, gap: real)
    requires sim(PAYOUTS, PAYOUTS) > sim(SHEET, PAYOUTS) && sim(PAYOUTS, PAYOUTS) >= 2.0 * gap
    ensures Found(ROUTINE, LINGERING, sim, gap) == [Divergence(1, 2, 0, [])]
    ensures |Chosen(ROUTINE, LINGERING, sim, gap)| == 2 && FrameBefore(Chosen(ROUTINE, LINGERING, sim, gap), LINGERING, 1) == Some(1)
    ensures LINGERING[0].screen != LINGERING[1].screen
  {
    SidesOfSkip();
    AlignedSkip(PlaceSimilarity(Canon(ROUTINE), Runs(LINGERING), sim), gap);
    ReadSkip();
    assert Chosen(ROUTINE, LINGERING, sim, gap) == [Alignment.Column(Some(0), Some(0)), Alignment.Column(Some(1), None)];
    var al := Chosen(ROUTINE, LINGERING, sim, gap);
    assert VisitFrom(al, 2) == None && VisitFrom(al, 1) == None;
    assert LINGERING[0].screen.items == [] && LINGERING[1].screen.items == ["Payout failed"];
  }

  // --------------------------------------- one step, and a detour instead of it

  const ONE_STEP := [Step("Enter the amount", Some(SHEET))]

  /** Name `n`: all are different. */
  function Id(n: nat): string { seq(n + 1, _ => 'x') }

  lemma IdsDiffer(m: nat, n: nat)
    ensures Id(m) == Id(n) <==> m == n
  {
    assert |Id(m)| == m + 1 && |Id(n)| == n + 1;
  }

  /** Instance `n`: one frame, on the failed payout's mail. */
  function Mailing(n: nat): seq<Frame> { [At(MAIL, Id(n), FAILED)] }

  lemma SidesOfDetour(n: nat)
    ensures Canon(ONE_STEP) == [CanonStep(0, SHEET)] && Runs(Mailing(n)) == [Run(MAIL, 0)]
  {
    assert CanonTo(ONE_STEP, 0) == [] && RunsTo(Mailing(n), 0) == [];
  }

  lemma OneAndOne(al: seq<Alignment.Column>)
    requires Alignment.Aligns(al, 0, 0, 1, 1)
    ensures
      || al == [Alignment.Column(Some(0), Some(0))]
      || al == [Alignment.Column(Some(0), None), Alignment.Column(None, Some(0))]
      || al == [Alignment.Column(None, Some(0)), Alignment.Column(Some(0), None)]
  {
    if al[0].a.None? {
      OneMoreColumn(al[1..], 0, 1);
      assert al == [al[0]] + al[1..];
    } else if al[0].b.None? {
      OneMoreColumn(al[1..], 1, 0);
      assert al == [al[0]] + al[1..];
    } else {
      AlignsAtMost(al[1..], 1, 1, 1, 1);
    }
  }

  lemma OneMoreColumn(rest: seq<Alignment.Column>, i: nat, j: nat)
    requires Alignment.Aligns(rest, i, j, 1, 1) && ((i == 0 && j == 1) || (i == 1 && j == 0))
    ensures rest == [if i == 0 then Alignment.Column(Some(0), None) else Alignment.Column(None, Some(0))]
  {
    AlignsAtMost(rest, i, j, 1, 1);
    AlignsAtMost(rest[1..], if rest[0].a.Some? then i + 1 else i, if rest[0].b.Some? then j + 1 else j, 1, 1);
  }

  lemma {:induction false} AlignsAtMost(al: seq<Alignment.Column>, i: nat, j: nat, m: nat, n: nat)
    requires Alignment.Aligns(al, i, j, m, n)
    ensures i <= m && j <= n && |al| <= (m - i) + (n - j)
    decreases |al|
  {
    if al != [] {
      AlignsAtMost(al[1..], if al[0].a.Some? then i + 1 else i, if al[0].b.Some? then j + 1 else j, m, n);
    }
  }

  lemma AllDiverge(cols: seq<Col>)
    requires 0 < |cols| <= 2 && forall c | 0 <= c < |cols| :: cols[c].verdict == Diverges
    ensures Spans(cols) == [Span(0, |cols| - 1)]
  {
    hide SpansTo, Disjoint, CoversDiverging, InBounds;
    NoSpans(cols);
    SpansNext(cols, 0);
    if |cols| == 2 { SpansNext(cols, 1); }
  }

  /** However the two sides are aligned, the instance leaves the step for its mail. */
  lemma DetourIsMined(al: seq<Alignment.Column>, n: nat)
    requires Aligned(al, ONE_STEP, Mailing(n))
    ensures BranchMining.Mined(al, ONE_STEP, Mailing(n)) == [Divergence(0, 1, 0, [0])]
  {
    SidesOfDetour(n);
    OneAndOne(al);
    var cols, runs := ColsOf(al, ONE_STEP, Mailing(n)), Runs(Mailing(n));
    DetourColumns(al, n);
    AllDiverge(cols);
    OneDetour(cols, runs, Span(0, |cols| - 1));
    DivergeOfDetour(cols, runs);
  }

  lemma DivergeOfDetour(cols: seq<Col>, runs: seq<Run>)
    requires runs == [Run(MAIL, 0)]
    requires cols == [Col(Some(0), Some(0), Diverges)]
          || cols == [Col(Some(0), None, Diverges), Col(None, Some(0), Diverges)]
          || cols == [Col(None, Some(0), Diverges), Col(Some(0), None, Diverges)]
    ensures Diverge(Span(0, |cols| - 1), cols, runs, 1) == Divergence(0, 1, 0, [0])
  {
    hide StepsIn, RunsIn;
    assert cols[0..|cols|] == cols;
    if |cols| == 2 {
      assert cols == [cols[0], cols[1]];
      TwoColumns(cols[0], cols[1], runs);
    } else {
      assert cols == [cols[0]];
      OneColumn(cols[0], runs);
    }
    assert Alternative(Span(0, |cols| - 1), cols, runs) == [0];
  }

  lemma DetourColumns(al: seq<Alignment.Column>, n: nat)
    requires Aligned(al, ONE_STEP, Mailing(n))
    ensures
      var cols := ColsOf(al, ONE_STEP, Mailing(n));
      || cols == [Col(Some(0), Some(0), Diverges)]
      || cols == [Col(Some(0), None, Diverges), Col(None, Some(0), Diverges)]
      || cols == [Col(None, Some(0), Diverges), Col(Some(0), None, Diverges)]
  {
    hide Canon, Runs;
    SidesOfDetour(n);
    OneAndOne(al);
    AlignedInRange(al, ONE_STEP, Mailing(n));
    var canon, runs := Canon(ONE_STEP), Runs(Mailing(n));
    NothingPerformed(al, canon, runs);
    forall c | 0 <= c < |al|
      ensures al[c] in al && Classify(al[c], canon, runs, Known(al, canon, runs)) == Col(al[c].a, al[c].b, Diverges)
    {
      DetourColumn(al[c], canon, runs, Known(al, canon, runs));
    }
  }

  lemma NothingPerformed(al: seq<Alignment.Column>, canon: seq<CanonStep>, runs: seq<Run>)
    requires canon == [CanonStep(0, SHEET)] && runs == [Run(MAIL, 0)] && forall c | c in al :: InRange(c, canon, runs)
    ensures MAIL !in Known(al, canon, runs)
  {
  }

  lemma DetourColumn(c: Alignment.Column, canon: seq<CanonStep>, runs: seq<Run>, known: set<Place>)
    requires canon == [CanonStep(0, SHEET)] && runs == [Run(MAIL, 0)] && InRange(c, canon, runs) && MAIL !in known
    ensures Classify(c, canon, runs, known) == Col(c.a, c.b, Diverges)
  {
    assert forall p | p in Visited(runs) :: p == MAIL;
  }

  lemma DetourFound(n: nat, sim: (Place, Place) -> real, gap: real)
    ensures Found(ONE_STEP, Mailing(n), sim, gap) == [Divergence(0, 1, 0, [0])]
  {
    DetourIsMined(Chosen(ONE_STEP, Mailing(n), sim, gap), n);
  }

  // ------------------------------------------------------- many such instances

  /** The hypothesis instance `n` adds. */
  function Hyp(n: nat): Hypothesis {
    Hypothesis(BranchRecords.Detour, 0, 1, FAILED, [AltStep("", MAIL.app, MAIL.doc, MAIL)], [Instance(Id(n)), FrameId(Id(n))])
  }

  const KEY := (0, 1, [MAIL])

  lemma HypothesisOf(n: nat)
    ensures FramesInRange(Divergence(0, 1, 0, [0]), Mailing(n))
    ensures Hypotheses([Divergence(0, 1, 0, [0])], Id(n), Mailing(n)) == [Hyp(n)]
    ensures Key(Hyp(n)) == KEY
  {
    var d, frames := Divergence(0, 1, 0, [0]), Mailing(n);
    TwiceTheSame(Id(n));
    OneFrame(0, frames);
    assert Id(n) != "";
    assert [frames[0].eventId] + FrameIds([0], frames) == [Id(n), Id(n)];
    assert ToHypothesis(d, Id(n), frames) == Hyp(n);
    OneHypothesis(d, Id(n), frames);
    KeyOfHyp(n);
  }

  lemma OneHypothesis(d: Divergence, id: string, frames: seq<Frame>)
    requires FramesInRange(d, frames)
    ensures Hypotheses([d], id, frames) == [ToHypothesis(d, id, frames)]
  {
  }

  lemma OneFrame(f: nat, frames: seq<Frame>)
    requires f < |frames|
    ensures FrameIds([f], frames) == [frames[f].eventId]
    ensures AltSteps([f], frames) == [AltStep(frames[f].whatDoing, frames[f].app, frames[f].location, frames[f].place)]
  {
    assert [f][1..] == [];
    assert FrameIds([], frames) == [] && AltSteps([], frames) == [];
  }

  lemma TwiceTheSame(id: string)
    ensures Dedup([id, id]) == [id]
    ensures id != "" ==> NonEmptyIds([id]) == [FrameId(id)]
  {
    assert [id, id][..1] == [id] && [id][..0] == [] && [id][1..] == [];
    assert Dedup([id]) == [id];
    assert NonEmptyIds([]) == [];
  }

  lemma KeyOfHyp(n: nat)
    ensures Key(Hyp(n)) == KEY
  {
    var alternative := Hyp(n).alternative;
    assert alternative[1..] == [] && PlacesOfSteps([]) == [];
    assert PlacesOfSteps(alternative) == [MAIL];
  }

  /** The Skill after the first `n` instances are recorded. */
  ghost function Recordings(n: nat, sim: (Place, Place) -> real, gap: real): Skill {
    if n == 0 then Skill(ONE_STEP, [], [])
    else RecordRun(Recordings(n - 1, sim, gap), Id(n - 1), Mailing(n - 1), sim, gap)
  }

  /** The last 50 instances are kept; the branch cites one more. */
  ghost predicate After(s: Skill, n: nat) {
    && s.steps == ONE_STEP
    && |s.hyps| == n - Less(n, MAX_HYPOTHESES)
    && (forall i | 0 <= i < |s.hyps| :: s.hyps[i] == Hyp(Less(n, MAX_HYPOTHESES) + i))
    && (n < 2 ==> s.branches == [])
    && (n >= 2 ==> Cites(s.branches, Less(n, MAX_HYPOTHESES + 1), n))
  }

  /** One mined branch, citing exactly the instances from `lo` to `hi`. */
  ghost predicate Cites(branches: seq<Branch>, lo: nat, hi: nat) {
    && |branches| == 1 && branches[0].Mined? && Key(branches[0].hyp) == KEY
    && (forall i: nat {:trigger Id(i)} :: Instance(Id(i)) in branches[0].hyp.evidence <==> lo <= i < hi)
  }

  lemma NotRecorded(s: Skill, n: nat, m: nat)
    requires After(s, n)
    ensures Recorded(s.hyps, Id(m)) <==> Less(n, MAX_HYPOTHESES) <= m < n
  {
    var lo := Less(n, MAX_HYPOTHESES);
    forall i | 0 <= i < |s.hyps|
      ensures InstanceOf(s.hyps[i].evidence) == Id(m) <==> lo + i == m
    {
      IdsDiffer(lo + i, m);
    }
    if lo <= m < n {
      assert InstanceOf(s.hyps[m - lo].evidence) == Id(m);
    }
  }

  lemma {:induction false} AllAgree(hyps: seq<Hypothesis>)
    requires forall h | h in hyps :: Key(h) == KEY
    ensures Agreeing(hyps, KEY) == hyps
  {
    if hyps != [] { AllAgree(hyps[1..]); }
  }

  lemma FailedTerms(hyps: seq<Hypothesis>)
    requires hyps != [] && forall h | h in hyps :: h.state == FAILED
    ensures Terms(SharedState(States(hyps))) != []
  {
    var states := States(hyps);
    assert forall t | t in states :: t == FAILED;
    assert states[0] == FAILED;
    var shared := SharedState(states);
    assert shared.items[0] == "Payout failed";
    DedupFacts(shared.items + shared.lines);
  }

  lemma TwoCited(hyps: seq<Hypothesis>, m: nat, n: nat)
    requires Hyp(m) in hyps && Hyp(n) in hyps && m != n
    ensures |Instances(hyps)| >= 2
  {
    IdsDiffer(m, n);
    assert InstanceOf(Hyp(m).evidence) == Id(m) && InstanceOf(Hyp(n).evidence) == Id(n);
    var cited := {Id(m), Id(n)};
    assert |cited| == 2 && cited <= Instances(hyps);
    SubsetSize(cited, Instances(hyps));
  }

  /** The hypotheses `lo` to `n` all agree. */
  lemma NewestAgree(all: seq<Hypothesis>, lo: nat, n: nat)
    requires lo < n && |all| == n + 1 - lo && forall i | 0 <= i < |all| :: all[i] == Hyp(lo + i)
    ensures Agreeing(all, KEY) == all && |Instances(all)| >= 2 && Terms(SharedState(States(all))) != []
  {
    hide Key, Terms, SharedState, States, Instances, Agreeing;
    forall h | h in all
      ensures Key(h) == KEY && h.state == FAILED
    {
      var i :| 0 <= i < |all| && all[i] == h;
      KeyOfHyp(lo + i);
    }
    AllAgree(all);
    assert all[0] == Hyp(lo) && all[n - lo] == Hyp(n);
    TwoCited(all, lo, n);
    FailedTerms(all);
  }

  /** Promoting the newest of the hypotheses `lo` to `n`. */
  lemma PromoteNewest(all: seq<Hypothesis>, lo: nat, n: nat, branches: seq<Branch>)
    requires lo < n && |all| == n + 1 - lo && forall i | 0 <= i < |all| :: all[i] == Hyp(lo + i)
    requires branches == [] || (|branches| == 1 && branches[0].Mined? && Key(branches[0].hyp) == KEY)
    ensures Cites(Promote(Hyp(n), all, branches, ONE_STEP), lo, n + 1)
  {
    hide Key, Terms, SharedState, States, MakeBranch, Instances, Agreeing;
    KeyOfHyp(n);
    NewestAgree(all, lo, n);
    PromotionReplacesEvidence(Hyp(n), all, branches, ONE_STEP);
    assert branches != [] ==> Existing(branches, KEY) == Some(0);
    PromotedAlone(all, n, branches);
    var after := Promote(Hyp(n), all, branches, ONE_STEP);
    forall i: nat
      ensures Instance(Id(i)) in after[0].hyp.evidence <==> lo <= i < n + 1
    {
      CitedBy(all, lo, n, i);
    }
  }

  lemma PromotedAlone(all: seq<Hypothesis>, n: nat, branches: seq<Branch>)
    requires |branches| <= 1 && Agreeing(all, KEY) == all && |Instances(all)| >= 2 && Terms(SharedState(States(all))) != []
    requires branches != [] ==> Existing(branches, KEY) == Some(0)
    ensures |Promote(Hyp(n), all, branches, ONE_STEP)| == 1
  {
    hide Key, Terms, SharedState, States, Agreeing, Instances, Wording;
    KeyOfHyp(n);
  }

  lemma CitedBy(all: seq<Hypothesis>, lo: nat, n: nat, i: nat)
    requires lo <= n && |all| == n + 1 - lo && forall k | 0 <= k < |all| :: all[k] == Hyp(lo + k)
    ensures (exists g :: g in all && Key(g) == KEY && Instance(Id(i)) in g.evidence) <==> lo <= i < n + 1
  {
    if lo <= i < n + 1 {
      assert all[i - lo] == Hyp(i) && Hyp(i).evidence[0] == Instance(Id(i));
      KeyOfHyp(i);
    }
    forall k | 0 <= k < |all|
      ensures Instance(Id(i)) in all[k].evidence <==> i == lo + k
    {
      IdsDiffer(i, lo + k);
    }
  }

  /** What recording instance `n` comes to. */
  lemma RecordOne(s: Skill, n: nat, sim: (Place, Place) -> real, gap: real)
    requires s.steps == ONE_STEP && !Recorded(s.hyps, Id(n))
    ensures
      var all := s.hyps + [Hyp(n)];
      RecordRun(s, Id(n), Mailing(n), sim, gap) == Skill(ONE_STEP, Recent(all), Promote(Hyp(n), all, s.branches, ONE_STEP))
  {
    hide Promote, Hypotheses, BranchMining.Found;
    DetourFound(n, sim, gap);
    HypothesisOf(n);
    var all := s.hyps + [Hyp(n)];
    assert PromoteTo([Hyp(n)], 0, all, s.branches, ONE_STEP) == s.branches;
    assert PromoteTo([Hyp(n)], 1, all, s.branches, ONE_STEP) == Promote(Hyp(n), all, s.branches, ONE_STEP);
  }

  lemma FirstPromotesNothing()
    ensures Promote(Hyp(0), [Hyp(0)], [], ONE_STEP) == []
  {
    KeyOfHyp(0);
    AllAgree([Hyp(0)]);
    assert Instances([Hyp(0)]) == {InstanceOf(Hyp(0).evidence)};
  }

  /** One more instance. */
  lemma OneMore(s: Skill, n: nat, sim: (Place, Place) -> real, gap: real)
    requires After(s, n)
    ensures After(RecordRun(s, Id(n), Mailing(n), sim, gap), n + 1)
  {
    hide RecordRun, Promote, Cites, Key;
    NotRecorded(s, n, n);
    RecordOne(s, n, sim, gap);
    var all := s.hyps + [Hyp(n)];
    if n == 0 {
      assert all == [Hyp(0)];
      FirstPromotesNothing();
    } else {
      MinedAlone(s, n);
      PromoteNewest(all, Less(n, MAX_HYPOTHESES), n, s.branches);
    }
  }

  lemma MinedAlone(s: Skill, n: nat)
    requires After(s, n)
    ensures s.branches == [] || (|s.branches| == 1 && s.branches[0].Mined? && Key(s.branches[0].hyp) == KEY)
  {
  }

  lemma {:induction false} AfterRecordings(n: nat, sim: (Place, Place) -> real, gap: real)
    ensures After(Recordings(n, sim, gap), n)
  {
    hide After, RecordRun;
    if n == 0 {
      assert After(Skill(ONE_STEP, [], []), 0) by { AfterNone(); }
    } else {
      AfterRecordings(n - 1, sim, gap);
      OneMore(Recordings(n - 1, sim, gap), n - 1, sim, gap);
    }
  }

  lemma AfterNone()
    ensures After(Skill(ONE_STEP, [], []), 0)
  {
  }

  // -------------------------------------------------------------------- runs

  /** A run goes on with one more event. */
  lemma RunGoesOn(states: seq<Skill>, histories: seq<set<Source>>, events: seq<Event>, sim: (Place, Place) -> real, gap: real, e: Event)
    requires IsRun(states, histories, events, sim, gap) && Applies(e, states[|events|])
    ensures IsRun(states + [Apply(states[|events|], e, sim, gap)],
                  histories + [histories[|events|] + NewSources(states[|events|], e, sim, gap)], events + [e], sim, gap)
  {
    hide Apply, NewSources, Applies;
  }

  /** The run that records the first `n` instances. */
  lemma {:induction false} RecordingRun(n: nat, sim: (Place, Place) -> real, gap: real)
    returns (states: seq<Skill>, histories: seq<set<Source>>, events: seq<Event>)
    ensures IsRun(states, histories, events, sim, gap) && |events| == n
    ensures forall k | 0 <= k <= n :: states[k] == Recordings(k, sim, gap)
    ensures forall k | 0 <= k < n :: events[k] == Record(Id(k), Mailing(k))
  {
    hide RecordRun, NewSources;
    if n == 0 {
      states, histories, events := [Skill(ONE_STEP, [], [])], [{}], [];
    } else {
      states, histories, events := RecordingRun(n - 1, sim, gap);
      var e := Record(Id(n - 1), Mailing(n - 1));
      RunGoesOn(states, histories, events, sim, gap, e);
      states, histories, events := states + [Apply(states[n - 1], e, sim, gap)],
        histories + [histories[n - 1] + NewSources(states[n - 1], e, sim, gap)], events + [e];
    }
  }

  /** A promoted branch does not always keep its own evidence: of 52 instances that
      leave the same step for the same place, the branch cites the first one until
      the last is recorded, and then no longer. */
  lemma EvidenceCanBeLost(sim: (Place, Place) -> real, gap: real)
    returns (states: seq<Skill>, histories: seq<set<Source>>, events: seq<Event>)
    ensures IsRun(states, histories, events, sim, gap) && |events| == 52 && forall k | 0 <= k < 52 :: events[k].Record?
    ensures |states[51].branches| == |states[52].branches| == 1
    ensures states[51].branches[0].Mined? && states[52].branches[0].Mined?
    ensures Key(states[51].branches[0].hyp) == Key(states[52].branches[0].hyp)
    ensures events[0].Record? && Instance(events[0].obsId) in states[51].branches[0].hyp.evidence
    ensures Instance(events[0].obsId) !in states[52].branches[0].hyp.evidence
  {
    hide RecordRun, IsRun;
    states, histories, events := RecordingRun(52, sim, gap);
    assert |states| == 53 by { RunLength(states, histories, events, sim, gap); }
    AfterRecordings(51, sim, gap);
    AfterRecordings(52, sim, gap);
    assert events[0] == Record(Id(0), Mailing(0));
  }

  lemma RunLength(states: seq<Skill>, histories: seq<set<Source>>, events: seq<Event>, sim: (Place, Place) -> real, gap: real)
    requires IsRun(states, histories, events, sim, gap)
    ensures |states| == |histories| == |events| + 1
  {
  }

  /** An instance already recorded can add something again: after 50 others its
      hypothesis is no longer kept. */
  lemma RecordedAgain(sim: (Place, Place) -> real, gap: real)
    returns (states: seq<Skill>, histories: seq<set<Source>>, events: seq<Event>)
    ensures IsRun(states, histories, events, sim, gap) && |events| == 52
    ensures events[0].Record? && events[51] == events[0] && Recorded(states[1].hyps, events[0].obsId)
    ensures states[52] != states[51] && !Recorded(states[51].hyps, events[0].obsId)
  {
    hide RecordRun, IsRun;
    states, histories, events := RecordingRun(51, sim, gap);
    RunLength(states, histories, events, sim, gap);
    AfterRecordings(1, sim, gap);
    AfterRecordings(51, sim, gap);
    NotRecorded(states[1], 1, 0);
    NotRecorded(states[51], 51, 0);
    var e := Record(Id(0), Mailing(0));
    RunGoesOn(states, histories, events, sim, gap, e);
    RecordChanges(states[51], sim, gap);
    states, histories, events := states + [Apply(states[51], e, sim, gap)],
      histories + [histories[51] + NewSources(states[51], e, sim, gap)], events + [e];
  }

  lemma RecordChanges(s: Skill, sim: (Place, Place) -> real, gap: real)
    requires s.steps == ONE_STEP && !Recorded(s.hyps, Id(0))
    ensures RecordRun(s, Id(0), Mailing(0), sim, gap) != s
  {
    FoundFits(s.steps, Mailing(0), sim, gap);
    DetourFound(0, sim, gap);
    RecordingChangesIff(s, Id(0), Mailing(0), Found(s.steps, Mailing(0), sim, gap));
  }
}
