/**
 What a Skill keeps of its divergences: hypotheses, the branches two agreeing
 instances promote, and how both follow the steps when one is inserted or
 removed (`record_divergences`, `_branch`, `shift_steps`).
 */
module BranchRecords {
  import opened Common
  import opened BranchMining

  const MAX_HYPOTHESES := 50
  const MAX_CONDITION_TERMS := 3

  datatype Kind = Detour | Skip

  datatype Evidence = Instance(id: string) | FrameId(id: string)

  /** What the instance did instead, at one place. */
  datatype AltStep = AltStep(action: string, app: string, location: string, place: Place)

  datatype Hypothesis = Hypothesis(
    kind: Kind,
    stepIndex: nat,
    rejoinIndex: nat,
    state: Screen,
    alternative: seq<AltStep>,
    evidence: seq<Evidence>)

  /** A branch's action, before it is put in words. */
  datatype Action =
    | SkipSteps(first: nat, rejoin: nat, names: seq<string>)
    | InsteadOf(first: nat, rejoin: nat, doing: seq<string>)
    | BeforeStep(first: nat, doing: seq<string>)
    | AfterLastStep(doing: seq<string>)

  /** `Mined` is a branch with `source: "divergence"`; any other is left alone. */
  datatype Branch =
    | Mined(hyp: Hypothesis, terms: seq<string>, action: Action)
    | Authored(text: string)

  datatype Skill = Skill(steps: seq<Step>, hyps: seq<Hypothesis>, branches: seq<Branch>)

  // ------------------------------------------------------------ hypotheses

  /** First occurrences, in order (`dict.fromkeys`). */
  function Dedup<T(==)>(s: seq<T>): seq<T> {
    if s == [] then [] else
      var init := Dedup(s[..|s| - 1]);
      if s[|s| - 1] in init then init else init + [s[|s| - 1]]
  }

  lemma {:induction false} DedupFacts<T>(s: seq<T>)
    ensures forall x :: x in Dedup(s) <==> x in s
    ensures forall i, j | 0 <= i < j < |Dedup(s)| :: Dedup(s)[i] != Dedup(s)[j]
    ensures s != [] ==> Dedup(s) != [] && Dedup(s)[0] == s[0]
  {
    if s != [] {
      DedupFacts(s[..|s| - 1]);
      assert s == s[..|s| - 1] + [s[|s| - 1]];
    }
  }

  function NonEmptyIds(ids: seq<string>): seq<Evidence> {
    if ids == [] then [] else
      (if ids[0] != "" then [FrameId(ids[0])] else []) + NonEmptyIds(ids[1..])
  }

  function AltSteps(alternative: seq<nat>, frames: seq<Frame>): seq<AltStep>
    requires forall k | 0 <= k < |alternative| :: alternative[k] < |frames|
  {
    if alternative == [] then [] else
      var f := frames[alternative[0]];
      [AltStep(f.whatDoing, f.app, f.location, f.place)] + AltSteps(alternative[1..], frames)
  }

  function FrameIds(alternative: seq<nat>, frames: seq<Frame>): seq<string>
    requires forall k | 0 <= k < |alternative| :: alternative[k] < |frames|
  {
    if alternative == [] then [] else [frames[alternative[0]].eventId] + FrameIds(alternative[1..], frames)
  }

  predicate FramesInRange(d: Divergence, frames: seq<Frame>) {
    d.conditionAt < |frames| && forall k | 0 <= k < |d.alternative| :: d.alternative[k] < |frames|
  }

  function ToHypothesis(d: Divergence, obsId: string, frames: seq<Frame>): Hypothesis
    requires FramesInRange(d, frames)
  {
    var ids := [frames[d.conditionAt].eventId] + FrameIds(d.alternative, frames);
    Hypothesis(if d.alternative != [] then Detour else Skip, d.stepIndex, d.rejoinIndex,
               frames[d.conditionAt].screen, AltSteps(d.alternative, frames),
               [Instance(obsId)] + NonEmptyIds(Dedup(ids)))
  }

  function Hypotheses(ds: seq<Divergence>, obsId: string, frames: seq<Frame>): (hs: seq<Hypothesis>)
    requires forall k | 0 <= k < |ds| :: FramesInRange(ds[k], frames)
    ensures |hs| == |ds|
    ensures forall k | 0 <= k < |ds| :: hs[k] == ToHypothesis(ds[k], obsId, frames)
  {
    if ds == [] then [] else [ToHypothesis(ds[0], obsId, frames)] + Hypotheses(ds[1..], obsId, frames)
  }

  /** What two hypotheses share when they agree: where they leave and rejoin, and the places in between. */
  function Key(h: Hypothesis): (nat, nat, seq<Place>) { (h.stepIndex, h.rejoinIndex, PlacesOfSteps(h.alternative)) }

  function PlacesOfSteps(alternative: seq<AltStep>): seq<Place> {
    if alternative == [] then [] else [alternative[0].place] + PlacesOfSteps(alternative[1..])
  }

  /** The instance an evidence list names first. */
  function InstanceOf(evidence: seq<Evidence>): string {
    if evidence == [] then "" else if evidence[0].Instance? then evidence[0].id else InstanceOf(evidence[1..])
  }

  lemma {:induction false} NonEmptyIdsFacts(ids: seq<string>)
    ensures forall e :: e in NonEmptyIds(ids) <==> e.FrameId? && e.id != "" && e.id in ids
    ensures (forall i, j | 0 <= i < j < |ids| :: ids[i] != ids[j]) ==>
              forall i, j | 0 <= i < j < |NonEmptyIds(ids)| :: NonEmptyIds(ids)[i] != NonEmptyIds(ids)[j]
  {
    if ids != [] {
      NonEmptyIdsFacts(ids[1..]);
      assert (forall i, j | 0 <= i < j < |ids| :: ids[i] != ids[j]) ==> ids[0] !in ids[1..];
    }
  }

  lemma {:induction false} AlternativeFacts(alternative: seq<nat>, frames: seq<Frame>)
    requires forall k | 0 <= k < |alternative| :: alternative[k] < |frames|
    ensures |AltSteps(alternative, frames)| == |FrameIds(alternative, frames)| == |alternative|
    ensures forall k | 0 <= k < |alternative| ::
              var f := frames[alternative[k]];
              AltSteps(alternative, frames)[k] == AltStep(f.whatDoing, f.app, f.location, f.place)
              && FrameIds(alternative, frames)[k] == f.eventId
  {
    if alternative != [] { AlternativeFacts(alternative[1..], frames); }
  }

  /** What a hypothesis keeps of a divergence: its kind and steps, the screen it was
      decided on, what was done instead, and whom it cites: the instance first, then
      the frames that have an id, each once. */
  lemma HypothesisKeeps(d: Divergence, obsId: string, frames: seq<Frame>)
    requires FramesInRange(d, frames)
    ensures
      var h := ToHypothesis(d, obsId, frames);
      && h.stepIndex == d.stepIndex && h.rejoinIndex == d.rejoinIndex && (h.kind == Skip <==> d.alternative == [])
      && h.state == frames[d.conditionAt].screen
      && |h.alternative| == |d.alternative|
      && (forall k | 0 <= k < |d.alternative| ::
            var f := frames[d.alternative[k]]; h.alternative[k] == AltStep(f.whatDoing, f.app, f.location, f.place))
      && h.evidence != [] && h.evidence[0] == Instance(obsId)
      && (forall i, j | 0 <= i < j < |h.evidence| :: h.evidence[i] != h.evidence[j])
      && (forall e :: e in h.evidence <==>
            || e == Instance(obsId)
            || (e.FrameId? && e.id != "" && (e.id == frames[d.conditionAt].eventId
                  || exists k | 0 <= k < |d.alternative| :: frames[d.alternative[k]].eventId == e.id)))
  {
    var ids := [frames[d.conditionAt].eventId] + FrameIds(d.alternative, frames);
    AlternativeFacts(d.alternative, frames);
    DedupFacts(ids);
    NonEmptyIdsFacts(Dedup(ids));
    forall id
      ensures id in ids <==> (id == frames[d.conditionAt].eventId
                              || exists k | 0 <= k < |d.alternative| :: frames[d.alternative[k]].eventId == id)
    {
      if id in FrameIds(d.alternative, frames) {
        var k :| 0 <= k < |d.alternative| && FrameIds(d.alternative, frames)[k] == id;
        assert frames[d.alternative[k]].eventId == id;
      }
    }
    hide FrameIds, AltSteps, NonEmptyIds, Dedup;
  }

  lemma {:induction false} PlacesOfStepsFacts(alternative: seq<AltStep>)
    ensures |PlacesOfSteps(alternative)| == |alternative|
    ensures forall k | 0 <= k < |alternative| :: PlacesOfSteps(alternative)[k] == alternative[k].place
  {
    if alternative != [] { PlacesOfStepsFacts(alternative[1..]); }
  }

  /** Hypotheses agree exactly when they leave and rejoin at the same steps and go to
      the same places in the same order. */
  lemma AgreeIff(g: Hypothesis, h: Hypothesis)
    ensures Key(g) == Key(h) <==>
            && g.stepIndex == h.stepIndex && g.rejoinIndex == h.rejoinIndex && |g.alternative| == |h.alternative|
            && forall k | 0 <= k < |g.alternative| :: g.alternative[k].place == h.alternative[k].place
  {
    PlacesOfStepsFacts(g.alternative);
    PlacesOfStepsFacts(h.alternative);
    hide PlacesOfSteps;
    if forall k | 0 <= k < |g.alternative| :: |g.alternative| == |h.alternative| && g.alternative[k].place == h.alternative[k].place {
      assert |g.alternative| == |h.alternative| ==> PlacesOfSteps(g.alternative) == PlacesOfSteps(h.alternative);
    }
  }

  // ---------------------------------------------------------- shared screens

  /** The entries of `s` that every one of `others` has. */
  function SharedItems(s: seq<string>, states: seq<Screen>): seq<string> {
    if s == [] then [] else
      (if forall t | t in states :: s[0] in t.items then [s[0]] else []) + SharedItems(s[1..], states)
  }

  function SharedLines(s: seq<string>, states: seq<Screen>): seq<string> {
    if s == [] then [] else
      (if forall t | t in states :: s[0] in t.lines then [s[0]] else []) + SharedLines(s[1..], states)
  }

  /** What every one of `states` shows. */
  function SharedState(states: seq<Screen>): Screen
    requires states != []
  {
    Screen(SharedItems(states[0].items, states), SharedLines(states[0].lines, states),
           if forall t | t in states :: t.url == states[0].url then states[0].url else "")
  }

  /** The terms a condition quotes. */
  function Terms(s: Screen): seq<string> {
    var all := Dedup(s.items + s.lines);
    if |all| <= MAX_CONDITION_TERMS then all else all[..MAX_CONDITION_TERMS]
  }

  predicate Shows(s: Screen, term: string) { term in s.items || term in s.lines }

  lemma {:induction false} SharedItemsFacts(s: seq<string>, states: seq<Screen>)
    ensures forall x :: x in SharedItems(s, states) <==> x in s && forall t | t in states :: x in t.items
  {
    if s != [] { SharedItemsFacts(s[1..], states); }
  }

  lemma {:induction false} SharedLinesFacts(s: seq<string>, states: seq<Screen>)
    ensures forall x :: x in SharedLines(s, states) <==> x in s && forall t | t in states :: x in t.lines
  {
    if s != [] { SharedLinesFacts(s[1..], states); }
  }

  /** `state` is exactly what all the screens show: every entry and line that each of
      them has, and their URL when it is one and the same. */
  ghost predicate ShowsShared(state: Screen, screens: set<Screen>) {
    && (forall x :: x in state.items <==> forall t | t in screens :: x in t.items)
    && (forall x :: x in state.lines <==> forall t | t in screens :: x in t.lines)
    && (state.url != "" ==> forall t | t in screens :: t.url == state.url)
    && (forall s | s in screens && s.url != "" && (forall t | t in screens :: t.url == s.url) :: state.url == s.url)
  }

  /** The shared state is what all the screens show. */
  lemma SharedStateIs(states: seq<Screen>)
    requires states != []
    ensures ShowsShared(SharedState(states), set t | t in states)
  {
    assert states[0] in states;
    SharedItemsFacts(states[0].items, states);
    SharedLinesFacts(states[0].lines, states);
  }

  /** The shared entries stand in the order of the first screen. */
  lemma {:induction false} SharedInOrder(a: seq<string>, b: seq<string>, states: seq<Screen>)
    ensures SharedItems(a + b, states) == SharedItems(a, states) + SharedItems(b, states)
  {
    if a == [] {
      assert a + b == b;
    } else {
      assert (a + b)[1..] == a[1..] + b;
      SharedInOrder(a[1..], b, states);
    }
  }

  /** And so do the shared lines. */
  lemma {:induction false} SharedLinesInOrder(a: seq<string>, b: seq<string>, states: seq<Screen>)
    ensures SharedLines(a + b, states) == SharedLines(a, states) + SharedLines(b, states)
  {
    if a == [] {
      assert a + b == b;
    } else {
      assert (a + b)[1..] == a[1..] + b;
      SharedLinesInOrder(a[1..], b, states);
    }
  }

  /** Each member comes after all that stand before its first place. */
  lemma {:induction false} DedupInOrder<T>(s: seq<T>, k: nat) returns (i: nat)
    requires k < |Dedup(s)|
    ensures i < |s| && s[i] == Dedup(s)[k] && forall x | 0 <= x < i :: s[x] in Dedup(s)[..k]
  {
    var n := |s| - 1;
    var init := Dedup(s[..n]);
    if k < |init| {
      i := DedupInOrder(s[..n], k);
      assert Dedup(s)[..k] == init[..k];
    } else {
      i := n;
      DedupFacts(s[..n]);
      assert Dedup(s)[..k] == init;
      assert forall x | 0 <= x < n :: s[x] == s[..n][x];
    }
  }

  /** The terms a condition quotes: at most three, none twice, entries before lines and
      each in its order, and all of them when they are fewer than three. */
  lemma TermsAreFirst(s: Screen)
    ensures |Terms(s)| <= 3 && (forall i, j | 0 <= i < j < |Terms(s)| :: Terms(s)[i] != Terms(s)[j])
    ensures |Terms(s)| < 3 ==> forall t :: t in Terms(s) <==> t in s.items || t in s.lines
    ensures forall k | 0 <= k < |Terms(s)| :: StandsAt(s.items + s.lines, Terms(s), k)
  {
    var shown := s.items + s.lines;
    DedupFacts(shown);
    forall k | 0 <= k < |Terms(s)|
      ensures StandsAt(shown, Terms(s), k)
    {
      var i := DedupInOrder(shown, k);
      assert Terms(s)[..k] == Dedup(shown)[..k];
    }
  }

  /** Term `k` is the first entry that is none of the terms before. */
  ghost predicate StandsAt(shown: seq<string>, terms: seq<string>, k: nat) {
    k < |terms| && exists i :: 0 <= i < |shown| && shown[i] == terms[k] && forall x | 0 <= x < i :: shown[x] in terms[..k]
  }

  /** Every term of the shared state is on every screen. */
  lemma TermsAreShown(states: seq<Screen>, term: string, t: Screen)
    requires states != [] && t in states && term in Terms(SharedState(states))
    ensures Shows(t, term)
  {
    assert states[0] in states;
    var shared := SharedState(states);
    assert term in Dedup(shared.items + shared.lines);
    DedupFacts(shared.items + shared.lines);
    SharedItemsFacts(states[0].items, states);
    SharedLinesFacts(states[0].lines, states);
  }

  lemma {:induction false} SharedWithItself(s: seq<string>, all: Screen)
    ensures (forall x | x in s :: x in all.items) ==> SharedItems(s, [all]) == s
    ensures (forall x | x in s :: x in all.lines) ==> SharedLines(s, [all]) == s
  {
    if s != [] {
      SharedWithItself(s[1..], all);
    }
  }

  // ------------------------------------------------------------------ branches

  function Names(steps: seq<Step>): seq<string> {
    if steps == [] then [] else (if steps[0].action != "" then [steps[0].action] else []) + Names(steps[1..])
  }

  function Doing(alternative: seq<AltStep>): seq<string> {
    if alternative == [] then [] else
      var s := alternative[0];
      [if s.action != "" then s.action else "go to " + (if s.location != "" then s.location else s.app)]
      + Doing(alternative[1..])
  }

  /** `steps[k:rejoin]`, as Python slices. */
  function Slice(steps: seq<Step>, k: nat, rejoin: nat): seq<Step> {
    var hi := if rejoin <= |steps| then rejoin else |steps|;
    if k <= hi then steps[k..hi] else []
  }

  function Wording(h: Hypothesis, steps: seq<Step>): Action {
    if h.alternative == [] then SkipSteps(h.stepIndex, h.rejoinIndex, Names(Slice(steps, h.stepIndex, h.rejoinIndex)))
    else if h.rejoinIndex > h.stepIndex then InsteadOf(h.stepIndex, h.rejoinIndex, Doing(h.alternative))
    else if h.stepIndex < |steps| then BeforeStep(h.stepIndex, Doing(h.alternative))
    else AfterLastStep(Doing(h.alternative))
  }

  /** The names are the steps' actions, in order, without the empty ones. */
  lemma {:induction false} NamesAre(a: seq<Step>, s: Step)
    ensures Names([]) == [] && Names(a + [s]) == Names(a) + if s.action == "" then [] else [s.action]
  {
    if a == [] {
      assert a + [s] == [s] && [s][1..] == [];
    } else {
      assert (a + [s])[1..] == a[1..] + [s];
      NamesAre(a[1..], s);
    }
  }

  lemma {:induction false} DoingIs(alternative: seq<AltStep>, k: nat)
    requires k < |alternative|
    ensures |Doing(alternative)| == |alternative|
    ensures
      var s := alternative[k];
      Doing(alternative)[k] == if s.action != "" then s.action else if s.location != "" then "go to " + s.location else "go to " + s.app
  {
    if |alternative| > 1 { DoingIs(alternative[1..], if k == 0 then 0 else k - 1); } else { assert alternative[1..] == []; }
  }

  /** What a branch says to do: skip exactly its steps, by their names; or do what was
      done instead of its steps, before the step it stands at, or after the last. */
  lemma WordingIs(h: Hypothesis, steps: seq<Step>)
    requires h.stepIndex <= h.rejoinIndex <= |steps|
    ensures
      Wording(h, steps) ==
        if h.alternative == [] then SkipSteps(h.stepIndex, h.rejoinIndex, Names(steps[h.stepIndex..h.rejoinIndex]))
        else if h.stepIndex < h.rejoinIndex then InsteadOf(h.stepIndex, h.rejoinIndex, Doing(h.alternative))
        else if h.stepIndex == |steps| then AfterLastStep(Doing(h.alternative))
        else BeforeStep(h.stepIndex, Doing(h.alternative))
  {
  }

  function States(hyps: seq<Hypothesis>): (states: seq<Screen>)
    ensures |states| == |hyps| && forall k | 0 <= k < |hyps| :: states[k] == hyps[k].state
  {
    if hyps == [] then [] else [hyps[0].state] + States(hyps[1..])
  }

  function Gathered(hyps: seq<Hypothesis>): seq<Evidence> {
    if hyps == [] then [] else
      var init := Gathered(hyps[..|hyps| - 1]);
      init + Absent(hyps[|hyps| - 1].evidence, init)
  }

  /** The items of `s` not in `held`. */
  function Absent(s: seq<Evidence>, held: seq<Evidence>): seq<Evidence> {
    if s == [] then [] else (if s[0] !in held then [s[0]] else []) + Absent(s[1..], held)
  }

  lemma {:induction false} AbsentFacts(s: seq<Evidence>, held: seq<Evidence>)
    ensures forall e :: e in Absent(s, held) <==> e in s && e !in held
  {
    if s != [] { AbsentFacts(s[1..], held); }
  }

  lemma {:induction false} GatheredFacts(hyps: seq<Hypothesis>)
    ensures forall e :: e in Gathered(hyps) <==> exists h :: h in hyps && e in h.evidence
  {
    if hyps != [] {
      var n := |hyps| - 1;
      GatheredFacts(hyps[..n]);
      AbsentFacts(hyps[n].evidence, Gathered(hyps[..n]));
      assert hyps == hyps[..n] + [hyps[n]];
    }
  }

  /** The branch the agreeing `hyps` support, None when their screens share nothing. */
  function MakeBranch(hyps: seq<Hypothesis>, steps: seq<Step>): Option<Branch>
    requires hyps != []
  {
    var shared := SharedState(States(hyps));
    if Terms(shared) == [] then None else
      var h := Hypothesis(if hyps[0].alternative != [] then Detour else Skip,
                          hyps[0].stepIndex, hyps[0].rejoinIndex, shared, hyps[0].alternative, Gathered(hyps));
      Some(Mined(h, Terms(shared), Wording(hyps[0], steps)))
  }

  function Agreeing(hyps: seq<Hypothesis>, key: (nat, nat, seq<Place>)): seq<Hypothesis> {
    if hyps == [] then [] else
      (if Key(hyps[0]) == key then [hyps[0]] else []) + Agreeing(hyps[1..], key)
  }

  lemma {:induction false} AgreeingFacts(hyps: seq<Hypothesis>, key: (nat, nat, seq<Place>))
    ensures forall h :: h in Agreeing(hyps, key) <==> h in hyps && Key(h) == key
  {
    if hyps != [] { AgreeingFacts(hyps[1..], key); }
  }

  function Instances(hyps: seq<Hypothesis>): (instances: set<string>)
    ensures hyps == [] ==> instances == {}
  {
    set h | h in hyps :: InstanceOf(h.evidence)
  }

  /** The first mined branch with this key. */
  function Existing(branches: seq<Branch>, key: (nat, nat, seq<Place>)): Option<nat> {
    if branches == [] then None
    else if branches[0].Mined? && Key(branches[0].hyp) == key then Some(0)
    else
      match Existing(branches[1..], key)
      case None => None
      case Some(k) => Some(k + 1)
  }

  lemma {:induction false} ExistingFacts(branches: seq<Branch>, key: (nat, nat, seq<Place>))
    ensures
      match Existing(branches, key)
      case None => forall k | 0 <= k < |branches| && branches[k].Mined? :: Key(branches[k].hyp) != key
      case Some(k) =>
        && k < |branches| && branches[k].Mined? && Key(branches[k].hyp) == key
        && forall j | 0 <= j < k && branches[j].Mined? :: Key(branches[j].hyp) != key
  {
    if branches != [] { ExistingFacts(branches[1..], key); }
  }

  function Promote(h: Hypothesis, hyps: seq<Hypothesis>, branches: seq<Branch>, steps: seq<Step>): seq<Branch> {
    var agreeing := Agreeing(hyps, Key(h));
    if |Instances(agreeing)| < 2 then branches else
      match MakeBranch(agreeing, steps)
      case None => branches
      case Some(branch) =>
        ExistingFacts(branches, Key(h));
        match Existing(branches, Key(h))
        case None => branches + [branch]
        case Some(k) => branches[k := branch]
  }

  function PromoteTo(added: seq<Hypothesis>, n: nat, hyps: seq<Hypothesis>, branches: seq<Branch>, steps: seq<Step>): seq<Branch>
    requires n <= |added|
  {
    if n == 0 then branches else Promote(added[n - 1], hyps, PromoteTo(added, n - 1, hyps, branches, steps), steps)
  }

  function Recent(hyps: seq<Hypothesis>): seq<Hypothesis> {
    if |hyps| <= MAX_HYPOTHESES then hyps else hyps[|hyps| - MAX_HYPOTHESES..]
  }

  predicate Recorded(hyps: seq<Hypothesis>, obsId: string) {
    exists k :: 0 <= k < |hyps| && InstanceOf(hyps[k].evidence) == obsId
  }

  /** The Skill after recording the divergences `ds` of one instance. */
  function WithDivergences(skill: Skill, obsId: string, frames: seq<Frame>, ds: seq<Divergence>): Skill
    requires forall k | 0 <= k < |ds| :: FramesInRange(ds[k], frames)
  {
    if Recorded(skill.hyps, obsId) || ds == [] then skill else
      var added := Hypotheses(ds, obsId, frames);
      var all := skill.hyps + added;
      Skill(skill.steps, Recent(all), PromoteTo(added, |added|, all, skill.branches, skill.steps))
  }

  // ------------------------------------------------------------- step edits

  datatype Edit = Inserted | Removed

  function MovedIndex(index: nat, at: nat, edit: Edit): nat {
    if edit.Inserted? then (if index >= at then index + 1 else index)
    else (if index > at then index - 1 else index)
  }

  function Moved(h: Hypothesis, at: nat, edit: Edit): Hypothesis {
    h.(stepIndex := MovedIndex(h.stepIndex, at, edit), rejoinIndex := MovedIndex(h.rejoinIndex, at, edit))
  }

  /** A skip that skips nothing any more. */
  predicate Emptied(h: Hypothesis) { h.kind == Skip && h.rejoinIndex <= h.stepIndex }

  function ShiftedHyps(hyps: seq<Hypothesis>, at: nat, edit: Edit): seq<Hypothesis> {
    if hyps == [] then [] else
      var h := Moved(hyps[0], at, edit);
      (if Emptied(h) then [] else [h]) + ShiftedHyps(hyps[1..], at, edit)
  }

  /** A mined branch on its steps, worded again from them; None when it skips nothing any more. */
  function ShiftedBranch(b: Branch, at: nat, edit: Edit, steps: seq<Step>): Option<Branch> {
    if b.Authored? then Some(b) else
      var h := Moved(b.hyp, at, edit);
      if Emptied(h) then None else
        match MakeBranch([h], steps)
        case None => Some(b.(hyp := h))
        case Some(reworded) => Some(b.(hyp := h, action := reworded.action))
  }

  function ShiftedBranches(branches: seq<Branch>, at: nat, edit: Edit, steps: seq<Step>): seq<Branch> {
    if branches == [] then [] else
      (match ShiftedBranch(branches[0], at, edit, steps) case None => [] case Some(b) => [b])
      + ShiftedBranches(branches[1..], at, edit, steps)
  }

  /** `steps` are the steps as they now stand. */
  function Shifted(skill: Skill, at: nat, edit: Edit, steps: seq<Step>): Skill {
    Skill(steps, ShiftedHyps(skill.hyps, at, edit), ShiftedBranches(skill.branches, at, edit, steps))
  }

  function InsertStep(skill: Skill, at: nat, step: Step): Skill
    requires at <= |skill.steps|
  {
    Shifted(skill, at, Inserted, skill.steps[..at] + [step] + skill.steps[at..])
  }

  function RemoveStep(skill: Skill, at: nat): Skill
    requires at < |skill.steps|
  {
    Shifted(skill, at, Removed, WithoutStep(skill.steps, at))
  }

  // ------------------------------------------- what a step edit keeps

  function WithoutStep(steps: seq<Step>, at: nat): (rest: seq<Step>)
    requires at < |steps|
    ensures |rest| == |steps| - 1
    ensures forall i | 0 <= i < |rest| :: rest[i] == if i < at then steps[i] else steps[i + 1]
  {
    steps[..at] + steps[at + 1..]
  }

  /** After a removal the hypothesis names its old steps, the removed one taken out. */
  lemma RemovalKeepsSteps(h: Hypothesis, steps: seq<Step>, at: nat)
    requires h.stepIndex <= h.rejoinIndex <= |steps| && at < |steps|
    ensures
      var h' := Moved(h, at, Removed);
      && h'.stepIndex <= h'.rejoinIndex <= |steps| - 1
      && WithoutStep(steps, at)[h'.stepIndex..h'.rejoinIndex] ==
         if h.stepIndex <= at < h.rejoinIndex
         then steps[h.stepIndex..at] + steps[at + 1..h.rejoinIndex]
         else steps[h.stepIndex..h.rejoinIndex]
  {
    var rest := WithoutStep(steps, at);
    if at < h.stepIndex {
      assert rest[h.stepIndex - 1..h.rejoinIndex - 1] == steps[h.stepIndex..h.rejoinIndex];
    } else if at < h.rejoinIndex {
      assert rest[h.stepIndex..h.rejoinIndex - 1] == steps[h.stepIndex..at] + steps[at + 1..h.rejoinIndex];
    } else {
      assert rest[h.stepIndex..h.rejoinIndex] == steps[h.stepIndex..h.rejoinIndex];
    }
  }

  /** A removal drops a skip exactly when the removed step was all it skipped. */
  lemma RemovalDropsEmptiedSkips(h: Hypothesis, at: nat)
    requires h.stepIndex < h.rejoinIndex
    ensures h.kind == Skip ==> (Emptied(Moved(h, at, Removed)) <==> h.stepIndex == at && h.rejoinIndex == at + 1)
    ensures ShiftedHyps([h], at, Removed) == if h.kind == Skip && h.stepIndex == at && h.rejoinIndex == at + 1 then [] else [Moved(h, at, Removed)]
  {
    assert [h][1..] == [];
  }

  /** A slice after an insertion: moved, stretched around the new member, or as it was. */
  lemma SliceOfInserted<T>(s: seq<T>, at: nat, x: T, lo: nat, hi: nat)
    requires lo <= hi <= |s| && at <= |s|
    ensures
      var more := s[..at] + [x] + s[at..];
      && (at <= lo ==> more[lo + 1..hi + 1] == s[lo..hi])
      && (lo < at <= hi ==> more[lo..hi + 1] == s[lo..at] + [x] + s[at..hi])
      && (hi < at ==> more[lo..hi] == s[lo..hi])
  {
    var front, more := s[..at] + [x], s[..at] + [x] + s[at..];
    assert more == front + s[at..] && |front| == at + 1;
    if at <= lo {
      SliceOfTail(front, s[at..], lo + 1, hi + 1);
      assert s[at..][lo - at..hi - at] == s[lo..hi];
    } else if at <= hi {
      assert more[lo..hi + 1] == more[lo..at + 1] + more[at + 1..hi + 1];
      SliceOfTail(front, s[at..], at + 1, hi + 1);
      assert s[at..][..hi - at] == s[at..hi];
      assert more[lo..at + 1] == front[lo..] == s[lo..at] + [x];
    } else {
      assert more[lo..hi] == front[lo..hi] == s[lo..hi];
    }
  }

  lemma SliceOfTail<T>(a: seq<T>, b: seq<T>, lo: nat, hi: nat)
    requires |a| <= lo <= hi <= |a| + |b|
    ensures (a + b)[lo..hi] == b[lo - |a|..hi - |a|]
  {
  }

  /** After an insertion it names its old steps, and the new one only when that
      stands after its first step and no later than the step it rejoins at. */
  lemma InsertionKeepsSteps(h: Hypothesis, steps: seq<Step>, at: nat, step: Step)
    requires h.stepIndex <= h.rejoinIndex <= |steps| && at <= |steps|
    ensures
      var h' := Moved(h, at, Inserted);
      var steps' := steps[..at] + [step] + steps[at..];
      && h'.stepIndex <= h'.rejoinIndex <= |steps'|
      && steps'[h'.stepIndex..h'.rejoinIndex] ==
         if h.stepIndex < at <= h.rejoinIndex
         then steps[h.stepIndex..at] + [step] + steps[at..h.rejoinIndex]
         else steps[h.stepIndex..h.rejoinIndex]
    ensures h.stepIndex < h.rejoinIndex ==> !Emptied(Moved(h, at, Inserted))
  {
    SliceOfInserted(steps, at, step, h.stepIndex, h.rejoinIndex);
  }

  /** Hypotheses that agreed still agree. */
  lemma EqualKeysStayEqual(g: Hypothesis, h: Hypothesis, at: nat, edit: Edit)
    requires Key(g) == Key(h)
    ensures Key(Moved(g, at, edit)) == Key(Moved(h, at, edit))
  {
    assert PlacesOfSteps(Moved(g, at, edit).alternative) == PlacesOfSteps(Moved(h, at, edit).alternative);
  }

  lemma {:induction false} ShiftedHypsBack(hyps: seq<Hypothesis>, at: nat)
    requires forall h | h in hyps :: !Emptied(h)
    ensures ShiftedHyps(ShiftedHyps(hyps, at, Inserted), at, Removed) == hyps
  {
    if hyps != [] {
      var h := hyps[0];
      assert h in hyps;
      assert !Emptied(Moved(h, at, Inserted)) && Moved(Moved(h, at, Inserted), at, Removed) == h;
      ShiftedHypsBack(hyps[1..], at);
      assert ShiftedHyps(hyps, at, Inserted)[1..] == ShiftedHyps(hyps[1..], at, Inserted);
      assert hyps == [h] + hyps[1..];
    }
  }

  /** A mined branch's action is worded from the steps. */
  ghost predicate Worded(b: Branch, steps: seq<Step>) {
    b.Mined? ==> !Emptied(b.hyp) && Terms(b.hyp.state) != [] && b.action == Wording(b.hyp, steps)
  }

  lemma RewordsSame(h: Hypothesis, steps: seq<Step>)
    requires Terms(h.state) != []
    ensures MakeBranch([h], steps).Some? && MakeBranch([h], steps).value.action == Wording(h, steps)
  {
    var states := States([h]);
    assert states == [h.state];
    SharedWithItself(h.state.items, h.state);
    SharedWithItself(h.state.lines, h.state);
    assert SharedState(states) == h.state;
  }

  lemma ShiftedBranchBack(b: Branch, at: nat, steps: seq<Step>, steps': seq<Step>)
    requires Worded(b, steps)
    ensures
      var there := ShiftedBranch(b, at, Inserted, steps');
      there.Some? && ShiftedBranch(there.value, at, Removed, steps) == Some(b)
  {
    hide MakeBranch, Terms, Wording;
    if b.Mined? {
      RewordsSame(Moved(b.hyp, at, Inserted), steps');
      RewordsSame(b.hyp, steps);
      assert Moved(Moved(b.hyp, at, Inserted), at, Removed) == b.hyp;
    }
  }

  lemma {:induction false} ShiftedBranchesBack(branches: seq<Branch>, at: nat, steps: seq<Step>, steps': seq<Step>)
    requires forall b | b in branches :: Worded(b, steps)
    ensures ShiftedBranches(ShiftedBranches(branches, at, Inserted, steps'), at, Removed, steps) == branches
  {
    hide ShiftedBranch, Worded;
    if branches != [] {
      var b := branches[0];
      assert b in branches;
      ShiftedBranchBack(b, at, steps, steps');
      ShiftedBranchesBack(branches[1..], at, steps, steps');
      assert ShiftedBranches(branches, at, Inserted, steps')[1..] == ShiftedBranches(branches[1..], at, Inserted, steps');
      assert branches == [b] + branches[1..];
    }
  }

  /** Inserting a step and removing it again gives the Skill back. */
  lemma InsertThenRemove(skill: Skill, at: nat, step: Step)
    requires at <= |skill.steps|
    requires forall h | h in skill.hyps :: !Emptied(h)
    requires forall b | b in skill.branches :: Worded(b, skill.steps)
    ensures RemoveStep(InsertStep(skill, at, step), at) == skill
  {
    var steps' := skill.steps[..at] + [step] + skill.steps[at..];
    assert WithoutStep(steps', at) == skill.steps;
    ShiftedHypsBack(skill.hyps, at);
    ShiftedBranchesBack(skill.branches, at, skill.steps, steps');
  }

  // --------------------------------------------------- invariants over runs

  /** What a hypothesis was made from: whom it cites and the screen decided on. */
  datatype Source = Source(evidence: seq<Evidence>, screen: Screen)

  function SourceOf(h: Hypothesis): Source { Source(h.evidence, h.state) }

  ghost predicate OnSteps(h: Hypothesis, nSteps: nat) {
    && h.stepIndex <= h.rejoinIndex <= nSteps
    && (h.kind == Skip <==> h.alternative == [])
    && (h.kind == Skip ==> h.stepIndex < h.rejoinIndex)
  }

  /** A recorded hypothesis names its instance first. */
  predicate Named(evidence: seq<Evidence>) { evidence != [] && evidence[0].Instance? }

  ghost predicate CitesTwo(evidence: seq<Evidence>) {
    exists i, j :: i != j && Instance(i) in evidence && Instance(j) in evidence
  }

  function Screens(backing: set<Source>): set<Screen> { set s | s in backing :: s.screen }

  /** `evidence`, `terms` and `state` come from recorded hypotheses of at least two
      instances, each of whose screens shows every term; `state` is what all of them show. */
  ghost predicate BackedBy(backing: set<Source>, evidence: seq<Evidence>, terms: seq<string>, state: Screen) {
    && ShowsShared(state, Screens(backing))
    && (exists s, t :: s in backing && t in backing && InstanceOf(s.evidence) != InstanceOf(t.evidence))
    && (forall s, term | s in backing && term in terms :: Shows(s.screen, term))
    && (forall e :: e in evidence <==> exists s :: s in backing && e in s.evidence)
  }

  ghost predicate Backed(b: Branch, history: set<Source>) {
    b.Mined? ==> exists backing: set<Source> :: backing <= history && BackedBy(backing, b.hyp.evidence, b.terms, b.hyp.state)
  }

  ghost predicate HypsOk(hyps: seq<Hypothesis>, nSteps: nat, history: set<Source>) {
    forall h | h in hyps :: OnSteps(h, nSteps) && Named(h.evidence) && SourceOf(h) in history
  }

  ghost predicate BranchOk(b: Branch, steps: seq<Step>, history: set<Source>) {
    && Backed(b, history) && Worded(b, steps)
    && (b.Mined? ==> CitesTwo(b.hyp.evidence) && OnSteps(b.hyp, |steps|) && b.terms == Terms(b.hyp.state))
  }

  ghost predicate Consistent(skill: Skill, history: set<Source>) {
    && |skill.hyps| <= MAX_HYPOTHESES
    && HypsOk(skill.hyps, |skill.steps|, history)
    && (forall b | b in skill.branches :: BranchOk(b, skill.steps, history))
  }

  lemma TwoInstances(hyps: seq<Hypothesis>) returns (g: Hypothesis, h: Hypothesis)
    requires |Instances(hyps)| >= 2
    ensures g in hyps && h in hyps && InstanceOf(g.evidence) != InstanceOf(h.evidence)
  {
    var all := Instances(hyps);
    var i :| i in all;
    var rest := all - {i};
    assert |rest| == |all| - 1;
    var j :| j in rest;
    g :| g in hyps && InstanceOf(g.evidence) == i;
    h :| h in hyps && InstanceOf(h.evidence) == j;
  }

  /** What agreeing hypotheses recorded backs what is gathered from them. */
  lemma GatheredIsBacked(agreeing: seq<Hypothesis>, backing: set<Source>)
    requires |Instances(agreeing)| >= 2 && agreeing != [] && (forall h | h in agreeing :: Named(h.evidence))
    requires backing == set g | g in agreeing :: SourceOf(g)
    ensures BackedBy(backing, Gathered(agreeing), Terms(SharedState(States(agreeing))), SharedState(States(agreeing)))
    ensures CitesTwo(Gathered(agreeing))
  {
    hide Terms, SharedState, ShowsShared, Shows, Instances, Gathered, InstanceOf;
    var states := States(agreeing);
    var g, h := TwoInstances(agreeing);
    assert SourceOf(g) in backing && SourceOf(h) in backing;
    ScreensAre(agreeing, backing);
    SharedStateIs(states);
    forall s, term | s in backing && term in Terms(SharedState(states))
      ensures Shows(s.screen, term)
    {
      assert s.screen in Screens(backing);
      TermsAreShown(states, term, s.screen);
    }
    GatheredFacts(agreeing);
    forall e
      ensures e in Gathered(agreeing) <==> exists s :: s in backing && e in s.evidence
    {
      if x :| x in agreeing && e in x.evidence { assert SourceOf(x) in backing; }
    }
    NamesItself(g.evidence);
    NamesItself(h.evidence);
  }

  lemma NamesItself(evidence: seq<Evidence>)
    requires Named(evidence)
    ensures Instance(InstanceOf(evidence)) in evidence
  {
  }

  /** The branch two agreeing instances support is backed by what they recorded. */
  lemma MadeBranchIsOk(agreeing: seq<Hypothesis>, steps: seq<Step>, history: set<Source>)
    requires |Instances(agreeing)| >= 2 && agreeing != [] && HypsOk(agreeing, |steps|, history)
    requires MakeBranch(agreeing, steps).Some?
    ensures BranchOk(MakeBranch(agreeing, steps).value, steps, history)
  {
    hide Terms, SharedState, ShowsShared, Instances, Gathered, BackedBy, CitesTwo, States, Wording;
    var b := MakeBranch(agreeing, steps).value;
    var backing := set g | g in agreeing :: SourceOf(g);
    GatheredIsBacked(agreeing, backing);
    assert BackedBy(backing, b.hyp.evidence, b.terms, b.hyp.state);
    assert agreeing[0] in agreeing;
    WordedAlike(b.hyp, agreeing[0], steps);
  }

  lemma WordedAlike(g: Hypothesis, h: Hypothesis, steps: seq<Step>)
    requires g.stepIndex == h.stepIndex && g.rejoinIndex == h.rejoinIndex && g.alternative == h.alternative
    ensures Wording(g, steps) == Wording(h, steps)
  {
  }

  lemma ScreensAre(hyps: seq<Hypothesis>, backing: set<Source>)
    requires backing == set g | g in hyps :: SourceOf(g)
    ensures Screens(backing) == (set t | t in States(hyps))
  {
    forall t
      ensures t in Screens(backing) <==> t in States(hyps)
    {
      if t in Screens(backing) {
        var s :| s in backing && s.screen == t;
        var k :| 0 <= k < |hyps| && SourceOf(hyps[k]) == s;
        assert States(hyps)[k] == t;
      }
      if t in States(hyps) {
        var k :| 0 <= k < |hyps| && States(hyps)[k] == t;
        assert hyps[k] in hyps && SourceOf(hyps[k]) in backing;
      }
    }
  }

  /** A promotion changes at most one branch, into the branch it made. */
  lemma PromotionIsLocal(h: Hypothesis, hyps: seq<Hypothesis>, branches: seq<Branch>, steps: seq<Step>, b: Branch)
    requires b in Promote(h, hyps, branches, steps) && b !in branches
    ensures |Instances(Agreeing(hyps, Key(h)))| >= 2 && MakeBranch(Agreeing(hyps, Key(h)), steps) == Some(b)
  {
    ExistingFacts(branches, Key(h));
    var after := Promote(h, hyps, branches, steps);
    var j :| 0 <= j < |after| && after[j] == b;
    assert j < |branches| && after[j] == branches[j] ==> b in branches;
  }

  lemma PromoteKeepsOk(h: Hypothesis, hyps: seq<Hypothesis>, branches: seq<Branch>, steps: seq<Step>, history: set<Source>)
    requires HypsOk(hyps, |steps|, history)
    requires forall b | b in branches :: BranchOk(b, steps, history)
    ensures forall b | b in Promote(h, hyps, branches, steps) :: BranchOk(b, steps, history)
  {
    var agreeing, after := Agreeing(hyps, Key(h)), Promote(h, hyps, branches, steps);
    AgreeingFacts(hyps, Key(h));
    forall b | b in after
      ensures BranchOk(b, steps, history)
    {
      if b !in branches {
        PromotionIsLocal(h, hyps, branches, steps, b);
        MadeBranchIsOk(agreeing, steps, history);
      }
    }
  }

  lemma {:induction false} PromoteToKeepsOk(added: seq<Hypothesis>, n: nat, hyps: seq<Hypothesis>, branches: seq<Branch>,
                                            steps: seq<Step>, history: set<Source>)
    requires n <= |added| && HypsOk(hyps, |steps|, history)
    requires forall b | b in branches :: BranchOk(b, steps, history)
    ensures forall b | b in PromoteTo(added, n, hyps, branches, steps) :: BranchOk(b, steps, history)
  {
    if n > 0 {
      PromoteToKeepsOk(added, n - 1, hyps, branches, steps, history);
      PromoteKeepsOk(added[n - 1], hyps, PromoteTo(added, n - 1, hyps, branches, steps), steps, history);
    }
  }

  /** The divergence fits the steps it was mined from. */
  ghost predicate Fits(d: Divergence, nSteps: nat) {
    d.stepIndex <= d.rejoinIndex <= nSteps && (d.alternative == [] ==> d.stepIndex < d.rejoinIndex)
  }

  lemma HypothesisOnSteps(d: Divergence, obsId: string, frames: seq<Frame>, nSteps: nat)
    requires FramesInRange(d, frames) && Fits(d, nSteps)
    ensures OnSteps(ToHypothesis(d, obsId, frames), nSteps) && Named(ToHypothesis(d, obsId, frames).evidence)
    ensures InstanceOf(ToHypothesis(d, obsId, frames).evidence) == obsId
  {
  }

  lemma BranchOkMonotone(b: Branch, steps: seq<Step>, history: set<Source>, more: set<Source>)
    requires BranchOk(b, steps, history) && history <= more
    ensures BranchOk(b, steps, more)
  {
    if b.Mined? {
      var backing: set<Source> :| backing <= history && BackedBy(backing, b.hyp.evidence, b.terms, b.hyp.state);
      assert backing <= more;
    }
  }

  /** What recording the divergences adds to the history. */
  ghost function SourcesOf(ds: seq<Divergence>, obsId: string, frames: seq<Frame>): set<Source>
    requires forall k | 0 <= k < |ds| :: FramesInRange(ds[k], frames)
  {
    set h | h in Hypotheses(ds, obsId, frames) :: SourceOf(h)
  }

  lemma RecordIsConsistent(skill: Skill, obsId: string, frames: seq<Frame>, ds: seq<Divergence>, history: set<Source>)
    requires Consistent(skill, history)
    requires forall k | 0 <= k < |ds| :: FramesInRange(ds[k], frames) && Fits(ds[k], |skill.steps|)
    ensures Consistent(WithDivergences(skill, obsId, frames, ds), history + SourcesOf(ds, obsId, frames))
  {
    var more := history + SourcesOf(ds, obsId, frames);
    forall b | b in skill.branches
      ensures BranchOk(b, skill.steps, more)
    {
      BranchOkMonotone(b, skill.steps, history, more);
    }
    var added := Hypotheses(ds, obsId, frames);
    var all := skill.hyps + added;
    forall h | h in added
      ensures OnSteps(h, |skill.steps|) && Named(h.evidence) && SourceOf(h) in more
    {
      var k :| 0 <= k < |added| && added[k] == h;
      HypothesisOnSteps(ds[k], obsId, frames, |skill.steps|);
    }
    assert HypsOk(all, |skill.steps|, more);
    PromoteToKeepsOk(added, |added|, all, skill.branches, skill.steps, more);
  }

  /** The instance is recorded again if and only if no kept hypothesis cites it
      any more and it diverges: "recorded once" reaches as far back as the
      hypotheses that are still kept. */
  lemma RecordingChangesIff(skill: Skill, obsId: string, frames: seq<Frame>, ds: seq<Divergence>)
    requires forall k | 0 <= k < |ds| :: FramesInRange(ds[k], frames) && Fits(ds[k], |skill.steps|)
    ensures WithDivergences(skill, obsId, frames, ds) == skill <==> Recorded(skill.hyps, obsId) || ds == []
    ensures ds != [] ==> Recorded(WithDivergences(skill, obsId, frames, ds).hyps, obsId)
  {
    if !Recorded(skill.hyps, obsId) && ds != [] {
      var next := WithDivergences(skill, obsId, frames, ds);
      var last := Hypotheses(ds, obsId, frames)[|ds| - 1];
      HypothesisOnSteps(ds[|ds| - 1], obsId, frames, |skill.steps|);
      assert next.hyps[|next.hyps| - 1] == last;
    }
  }

  /** A promotion replaces the evidence of the branch it finds: the branch still
      cites `e` if and only if a kept hypothesis with its key does.  (Evidence of
      hypotheses the cap has dropped is lost then.) */
  lemma PromotionReplacesEvidence(h: Hypothesis, hyps: seq<Hypothesis>, branches: seq<Branch>, steps: seq<Step>)
    requires |Instances(Agreeing(hyps, Key(h)))| >= 2
    requires Terms(SharedState(States(Agreeing(hyps, Key(h))))) != []
    ensures
      var after := Promote(h, hyps, branches, steps);
      var k := match Existing(branches, Key(h)) case None => |branches| case Some(k) => k;
      && k < |after| && after[k].Mined? && Key(after[k].hyp) == Key(h)
      && (forall j | 0 <= j < |branches| && j != k :: j < |after| && after[j] == branches[j])
      && (forall e :: e in after[k].hyp.evidence <==> exists g :: g in hyps && Key(g) == Key(h) && e in g.evidence)
  {
    hide Key, Terms, SharedState, States, Wording, Instances, Existing, Gathered;
    var agreeing := Agreeing(hyps, Key(h));
    AgreeingFacts(hyps, Key(h));
    GatheredFacts(agreeing);
    ExistingFacts(branches, Key(h));
    assert agreeing[0] in agreeing;
    SameKey(MakeBranch(agreeing, steps).value.hyp, agreeing[0]);
  }

  /** The added hypothesis makes a branch in the place of branch `k`. */
  ghost predicate Promotes(h: Hypothesis, all: seq<Hypothesis>, branches: seq<Branch>, k: nat) {
    && |Instances(Agreeing(all, Key(h)))| >= 2
    && Terms(SharedState(States(Agreeing(all, Key(h))))) != []
    && Existing(branches, Key(h)) == Some(k)
  }

  /** `later` has the branches of `earlier` in their places, each as mined and with the key it had. */
  ghost predicate KeepsPlaces(earlier: seq<Branch>, later: seq<Branch>) {
    && |earlier| <= |later|
    && forall j | 0 <= j < |earlier| :: earlier[j].Mined? == later[j].Mined? &&
         (earlier[j].Mined? ==> Key(earlier[j].hyp) == Key(later[j].hyp))
  }

  lemma ExistingSame(earlier: seq<Branch>, later: seq<Branch>, key: (nat, nat, seq<Place>), k: nat)
    requires KeepsPlaces(earlier, later) && k < |earlier|
    ensures Existing(earlier, key) == Some(k) <==> Existing(later, key) == Some(k)
  {
    hide Existing, Key;
    ExistingFacts(earlier, key);
    ExistingFacts(later, key);
  }

  lemma PromoteStep(h: Hypothesis, all: seq<Hypothesis>, branches: seq<Branch>, now: seq<Branch>, steps: seq<Step>, k: nat)
    requires KeepsPlaces(branches, now) && k < |branches|
    ensures KeepsPlaces(branches, Promote(h, all, now, steps))
    ensures Promotes(h, all, branches, k) ==>
              Agreeing(all, Key(h)) != [] && MakeBranch(Agreeing(all, Key(h)), steps) == Some(Promote(h, all, now, steps)[k])
    ensures !Promotes(h, all, branches, k) ==> Promote(h, all, now, steps)[k] == now[k]
  {
    hide Existing, Key, Terms, SharedState, States, Wording, Gathered;
    AgreeingFacts(all, Key(h));
    ExistingFacts(now, Key(h));
    ExistingSame(branches, now, Key(h), k);
    var agreeing := Agreeing(all, Key(h));
    if |Instances(agreeing)| >= 2 && MakeBranch(agreeing, steps).Some? {
      assert agreeing[0] in agreeing;
      SameKey(MakeBranch(agreeing, steps).value.hyp, agreeing[0]);
    }
  }

  lemma SameKey(g: Hypothesis, h: Hypothesis)
    requires g.stepIndex == h.stepIndex && g.rejoinIndex == h.rejoinIndex && g.alternative == h.alternative
    ensures Key(g) == Key(h)
  {
  }

  /** After the promotions branch `k` is what it was, or the branch of all with its key. */
  lemma {:induction false} PromotedTo(added: seq<Hypothesis>, n: nat, all: seq<Hypothesis>, branches: seq<Branch>, steps: seq<Step>, k: nat)
    requires n <= |added| && k < |branches| && branches[k].Mined?
    ensures KeepsPlaces(branches, PromoteTo(added, n, all, branches, steps))
    ensures (exists m | 0 <= m < n :: Promotes(added[m], all, branches, k)) ==>
              Agreeing(all, Key(branches[k].hyp)) != [] &&
              MakeBranch(Agreeing(all, Key(branches[k].hyp)), steps) == Some(PromoteTo(added, n, all, branches, steps)[k])
    ensures (forall m | 0 <= m < n :: !Promotes(added[m], all, branches, k)) ==>
              PromoteTo(added, n, all, branches, steps)[k] == branches[k]
  {
    hide Promote, MakeBranch, Agreeing, Promotes, KeepsPlaces, Key;
    if n == 0 {
      KeepsItsPlaces(branches);
    } else {
      PromotedTo(added, n - 1, all, branches, steps, k);
      PromoteStep(added[n - 1], all, branches, PromoteTo(added, n - 1, all, branches, steps), steps, k);
      PromotesItsKey(added[n - 1], all, branches, k);
    }
  }

  lemma KeepsItsPlaces(branches: seq<Branch>)
    ensures KeepsPlaces(branches, branches)
  {
  }

  lemma PromotesItsKey(h: Hypothesis, all: seq<Hypothesis>, branches: seq<Branch>, k: nat)
    requires k < |branches| && branches[k].Mined?
    ensures Promotes(h, all, branches, k) ==> Key(h) == Key(branches[k].hyp)
  {
    hide Key, Existing;
    ExistingFacts(branches, Key(h));
  }

  /** The evidence of branch `k` after a recording: that of every kept or added
      hypothesis with its key if an added one promotes it, else what it was. */
  lemma RecordedEvidence(skill: Skill, obsId: string, frames: seq<Frame>, ds: seq<Divergence>, k: nat)
    requires forall d | 0 <= d < |ds| :: FramesInRange(ds[d], frames)
    requires k < |skill.branches| && skill.branches[k].Mined?
    ensures
      var after := WithDivergences(skill, obsId, frames, ds);
      var added := Hypotheses(ds, obsId, frames);
      var all := skill.hyps + added;
      var key := Key(skill.branches[k].hyp);
      && k < |after.branches| && after.branches[k].Mined? && Key(after.branches[k].hyp) == key
      && (if !Recorded(skill.hyps, obsId) && exists h :: h in added && Promotes(h, all, skill.branches, k)
          then forall e :: e in after.branches[k].hyp.evidence <==> exists g :: g in all && Key(g) == key && e in g.evidence
          else after.branches[k] == skill.branches[k])
  {
    hide Promote, Key, Existing, Promotes;
    var added := Hypotheses(ds, obsId, frames);
    var all := skill.hyps + added;
    var key := Key(skill.branches[k].hyp);
    if !Recorded(skill.hyps, obsId) && ds != [] {
      PromotedTo(added, |added|, all, skill.branches, skill.steps, k);
      AgreeingFacts(all, key);
      GatheredFacts(Agreeing(all, key));
    }
  }

  /** A recording keeps all the evidence of a mined branch if and only if no added
      hypothesis promotes the branch, or every item it cites is cited by a kept or
      added hypothesis with its key. */
  lemma RecordingKeepsEvidenceIff(skill: Skill, obsId: string, frames: seq<Frame>, ds: seq<Divergence>, k: nat)
    requires forall d | 0 <= d < |ds| :: FramesInRange(ds[d], frames)
    requires k < |skill.branches| && skill.branches[k].Mined?
    ensures
      var after := WithDivergences(skill, obsId, frames, ds);
      var added := Hypotheses(ds, obsId, frames);
      var all := skill.hyps + added;
      var cited := skill.branches[k].hyp.evidence;
      && k < |after.branches| && after.branches[k].Mined?
      && ((forall e | e in cited :: e in after.branches[k].hyp.evidence) <==>
          || Recorded(skill.hyps, obsId)
          || (forall h | h in added :: !Promotes(h, all, skill.branches, k))
          || (forall e | e in cited :: exists g :: g in all && Key(g) == Key(skill.branches[k].hyp) && e in g.evidence))
  {
    hide Promote, Key, Existing, Promotes, WithDivergences, Recorded, Hypotheses;
    RecordedEvidence(skill, obsId, frames, ds, k);
  }

  /** Evidence no kept or added hypothesis cites is gone after a recording that promotes the branch. */
  lemma DroppedEvidenceIsLost(skill: Skill, obsId: string, frames: seq<Frame>, ds: seq<Divergence>, k: nat, h: Hypothesis, e: Evidence)
    requires forall d | 0 <= d < |ds| :: FramesInRange(ds[d], frames)
    requires k < |skill.branches| && skill.branches[k].Mined? && !Recorded(skill.hyps, obsId)
    requires h in Hypotheses(ds, obsId, frames)
    requires Promotes(h, skill.hyps + Hypotheses(ds, obsId, frames), skill.branches, k)
    requires forall g | g in skill.hyps + Hypotheses(ds, obsId, frames) :: e !in g.evidence
    ensures
      var after := WithDivergences(skill, obsId, frames, ds);
      && k < |after.branches| && after.branches[k].Mined? && Key(after.branches[k].hyp) == Key(skill.branches[k].hyp)
      && e !in after.branches[k].hyp.evidence
  {
    hide Promote, Key, Existing, Promotes, WithDivergences, Recorded, Hypotheses;
    RecordedEvidence(skill, obsId, frames, ds, k);
  }

  // -- step edits keep the invariant

  lemma {:induction false} ShiftedHypsFrom(hyps: seq<Hypothesis>, at: nat, edit: Edit)
    ensures |ShiftedHyps(hyps, at, edit)| <= |hyps|
    ensures forall h :: h in ShiftedHyps(hyps, at, edit) <==> !Emptied(h) && exists g :: g in hyps && h == Moved(g, at, edit)
  {
    if hyps != [] {
      ShiftedHypsFrom(hyps[1..], at, edit);
    }
  }

  lemma MovedOnSteps(h: Hypothesis, at: nat, edit: Edit, nSteps: nat)
    requires OnSteps(h, nSteps) && !Emptied(Moved(h, at, edit))
    requires if edit.Inserted? then at <= nSteps else at < nSteps
    ensures OnSteps(Moved(h, at, edit), if edit.Inserted? then nSteps + 1 else nSteps - 1)
  {
  }

  lemma ShiftedBranchOk(b: Branch, at: nat, edit: Edit, nBefore: nat, before: seq<Step>, steps: seq<Step>, history: set<Source>)
    requires BranchOk(b, before, history) && nBefore == |before|
    requires if edit.Inserted? then at <= nBefore && |steps| == nBefore + 1 else at < nBefore && |steps| == nBefore - 1
    ensures ShiftedBranch(b, at, edit, steps).Some? ==> BranchOk(ShiftedBranch(b, at, edit, steps).value, steps, history)
  {
    var there := ShiftedBranch(b, at, edit, steps);
    if b.Mined? && there.Some? {
      MovedOnSteps(b.hyp, at, edit, nBefore);
      RewordsSame(Moved(b.hyp, at, edit), steps);
      var backing: set<Source> :| backing <= history && BackedBy(backing, b.hyp.evidence, b.terms, b.hyp.state);
    }
  }

  lemma {:induction false} ShiftedBranchesOk(branches: seq<Branch>, at: nat, edit: Edit, before: seq<Step>, steps: seq<Step>, history: set<Source>)
    requires forall b | b in branches :: BranchOk(b, before, history)
    requires if edit.Inserted? then at <= |before| && |steps| == |before| + 1 else at < |before| && |steps| == |before| - 1
    ensures forall b | b in ShiftedBranches(branches, at, edit, steps) :: BranchOk(b, steps, history)
  {
    if branches != [] {
      assert branches[0] in branches;
      ShiftedBranchOk(branches[0], at, edit, |before|, before, steps, history);
      ShiftedBranchesOk(branches[1..], at, edit, before, steps, history);
    }
  }

  lemma ShiftIsConsistent(skill: Skill, at: nat, edit: Edit, steps: seq<Step>, history: set<Source>)
    requires Consistent(skill, history)
    requires if edit.Inserted? then at <= |skill.steps| && |steps| == |skill.steps| + 1
             else at < |skill.steps| && |steps| == |skill.steps| - 1
    ensures Consistent(Shifted(skill, at, edit, steps), history)
  {
    ShiftedHypsFrom(skill.hyps, at, edit);
    forall h | h in ShiftedHyps(skill.hyps, at, edit)
      ensures OnSteps(h, |steps|) && Named(h.evidence) && SourceOf(h) in history
    {
      var g :| g in skill.hyps && h == Moved(g, at, edit);
      MovedOnSteps(g, at, edit, |skill.steps|);
    }
    ShiftedBranchesOk(skill.branches, at, edit, skill.steps, steps, history);
  }

  // -- runs

  datatype Event =
    | Record(obsId: string, frames: seq<Frame>)
    | Insert(at: nat, step: Step)
    | Remove(at: nat)

  ghost predicate Applies(e: Event, skill: Skill) {
    match e
    case Record(_, _) => true
    case Insert(at, _) => at <= |skill.steps|
    case Remove(at) => at < |skill.steps|
  }

  lemma FoundFits(steps: seq<Step>, frames: seq<Frame>, sim: (Place, Place) -> real, gap: real)
    ensures forall k | 0 <= k < |Found(steps, frames, sim, gap)| ::
              FramesInRange(Found(steps, frames, sim, gap)[k], frames) && Fits(Found(steps, frames, sim, gap)[k], |steps|)
  {
    var al, ds := Chosen(steps, frames, sim, gap), Found(steps, frames, sim, gap);
    forall k | 0 <= k < |ds|
      ensures FramesInRange(ds[k], frames) && Fits(ds[k], |steps|)
    {
      MinedIsWellFormed(al, steps, frames, k);
      forall i | 0 <= i < |ds[k].alternative|
        ensures ds[k].alternative[i] < |frames|
      {
        assert ds[k].alternative[i] in ds[k].alternative;
      }
    }
  }

  ghost function RecordRun(skill: Skill, obsId: string, frames: seq<Frame>, sim: (Place, Place) -> real, gap: real): Skill {
    FoundFits(skill.steps, frames, sim, gap);
    WithDivergences(skill, obsId, frames, Found(skill.steps, frames, sim, gap))
  }

  ghost function Apply(skill: Skill, e: Event, sim: (Place, Place) -> real, gap: real): Skill
    requires Applies(e, skill)
  {
    match e
    case Record(obsId, frames) => RecordRun(skill, obsId, frames, sim, gap)
    case Insert(at, step) => InsertStep(skill, at, step)
    case Remove(at) => RemoveStep(skill, at)
  }

  ghost function NewSources(skill: Skill, e: Event, sim: (Place, Place) -> real, gap: real): set<Source> {
    if e.Record? then
      FoundFits(skill.steps, e.frames, sim, gap);
      SourcesOf(Found(skill.steps, e.frames, sim, gap), e.obsId, e.frames)
    else {}
  }

  /** `states` are the Skill before each of `events` and after the last, and
      `histories` what had been recorded by then. */
  ghost predicate IsRun(states: seq<Skill>, histories: seq<set<Source>>, events: seq<Event>, sim: (Place, Place) -> real, gap: real) {
    && |states| == |histories| == |events| + 1
    && states[0].hyps == [] && (forall b | b in states[0].branches :: b.Authored?)
    && histories[0] == {}
    && forall k | 0 <= k < |events| ::
         && Applies(events[k], states[k])
         && states[k + 1] == Apply(states[k], events[k], sim, gap)
         && histories[k + 1] == histories[k] + NewSources(states[k], events[k], sim, gap)
  }

  /** Over every run of recordings and step edits: at most 50 hypotheses, every
      index in range, no empty skip, every mined branch worded from the steps,
      citing two different instances by name, backed by screens that all show
      each of its terms. */
  lemma {:induction false} RunsAreConsistent(states: seq<Skill>, histories: seq<set<Source>>, events: seq<Event>,
                                             sim: (Place, Place) -> real, gap: real, k: nat)
    requires IsRun(states, histories, events, sim, gap) && k <= |events|
    ensures Consistent(states[k], histories[k])
  {
    if k > 0 {
      RunsAreConsistent(states, histories, events, sim, gap, k - 1);
      var skill, e, history := states[k - 1], events[k - 1], histories[k - 1];
      assert states[k - 1 + 1] == Apply(skill, e, sim, gap);
      match e {
        case Record(obsId, frames) =>
          FoundFits(skill.steps, frames, sim, gap);
          RecordIsConsistent(skill, obsId, frames, Found(skill.steps, frames, sim, gap), history);
        case Insert(at, step) =>
          ShiftIsConsistent(skill, at, Inserted, skill.steps[..at] + [step] + skill.steps[at..], history);
        case Remove(at) =>
          ShiftIsConsistent(skill, at, Removed, WithoutStep(skill.steps, at), history);
      }
    }
  }

  /** In every state of a run, a step inserted and removed again leaves no trace. */
  lemma EditIsUndone(states: seq<Skill>, histories: seq<set<Source>>, events: seq<Event>,
                     sim: (Place, Place) -> real, gap: real, k: nat, at: nat, step: Step)
    requires IsRun(states, histories, events, sim, gap) && k <= |events| && at <= |states[k].steps|
    ensures RemoveStep(InsertStep(states[k], at, step), at) == states[k]
  {
    hide Backed;
    RunsAreConsistent(states, histories, events, sim, gap, k);
    InsertThenRemove(states[k], at, step);
  }

  /** Recording the same instance twice in a row changes nothing the second time. */
  lemma RecordingTwice(skill: Skill, obsId: string, frames: seq<Frame>, sim: (Place, Place) -> real, gap: real)
    ensures
      var once := RecordRun(skill, obsId, frames, sim, gap);
      RecordRun(once, obsId, frames, sim, gap) == once
  {
    var once := RecordRun(skill, obsId, frames, sim, gap);
    FoundFits(skill.steps, frames, sim, gap);
    FoundFits(once.steps, frames, sim, gap);
    RecordingChangesIff(skill, obsId, frames, Found(skill.steps, frames, sim, gap));
    RecordingChangesIff(once, obsId, frames, Found(once.steps, frames, sim, gap));
  }

  // ------------------------------------------------------------ the procedure

  datatype Outcome = Done | BadDelta

  /** A stored procedure: its steps, hypotheses and branches, edited in place. */
  class Procedure {
    var steps: seq<Step>
    var hypotheses: seq<Hypothesis>
    var branches: seq<Branch>

    function View(): Skill
      reads this
    {
      Skill(steps, hypotheses, branches)
    }

    constructor (steps: seq<Step>, hypotheses: seq<Hypothesis>, branches: seq<Branch>)
      ensures View() == Skill(steps, hypotheses, branches)
    {
      this.steps, this.hypotheses, this.branches := steps, hypotheses, branches;
    }

    static method AlreadyRecorded(hyps: seq<Hypothesis>, obsId: string) returns (recorded: bool)
      ensures recorded <==> Recorded(hyps, obsId)
    {
      for k := 0 to |hyps|
        invariant forall i | 0 <= i < k :: InstanceOf(hyps[i].evidence) != obsId
      {
        if InstanceOf(hyps[k].evidence) == obsId {
          return true;
        }
      }
      recorded := false;
    }

    /** The agreement check for one new hypothesis. */
    static method PromoteOne(h: Hypothesis, hyps: seq<Hypothesis>, branches: seq<Branch>, steps: seq<Step>)
      returns (after: seq<Branch>)
      ensures after == Promote(h, hyps, branches, steps)
    {
      var agreeing := Agreeing(hyps, Key(h));
      if |Instances(agreeing)| < 2 {
        return branches;
      }
      var branch := MakeBranch(agreeing, steps);
      if branch.None? {
        return branches;
      }
      ExistingFacts(branches, Key(h));
      var existing := Existing(branches, Key(h));
      after := if existing.None? then branches + [branch.value] else branches[existing.value := branch.value];
    }

    static method PromoteAll(added: seq<Hypothesis>, hyps: seq<Hypothesis>, branches: seq<Branch>, steps: seq<Step>)
      returns (after: seq<Branch>)
      ensures after == PromoteTo(added, |added|, hyps, branches, steps)
    {
      after := branches;
      for k := 0 to |added|
        invariant after == PromoteTo(added, k, hyps, branches, steps)
      {
        after := PromoteOne(added[k], hyps, after, steps);
      }
    }

    /** Store the divergences of an instance not recorded yet. */
    method AddHypotheses(obsId: string, frames: seq<Frame>, ds: seq<Divergence>)
      requires forall k | 0 <= k < |ds| :: FramesInRange(ds[k], frames)
      requires !Recorded(hypotheses, obsId) && ds != []
      modifies this
      ensures View() == WithDivergences(old(View()), obsId, frames, ds)
    {
      hide Hypotheses, PromoteTo, Recorded;
      var added := Hypotheses(ds, obsId, frames);
      hypotheses := hypotheses + added;
      branches := PromoteAll(added, hypotheses, branches, steps);
      if |hypotheses| > MAX_HYPOTHESES {
        hypotheses := hypotheses[|hypotheses| - MAX_HYPOTHESES..];
      }
    }

    /** One instance recorded, unless a hypothesis still cites it. */
    method RecordDivergences(obsId: string, frames: seq<Frame>, sim: (Place, Place) -> real, gap: real)
      returns (changed: bool)
      modifies this
      ensures View() == RecordRun(old(View()), obsId, frames, sim, gap)
      ensures changed <==> View() != old(View())
    {
      var recorded := AlreadyRecorded(hypotheses, obsId);
      var ds := FindDivergences(steps, frames, sim, gap);
      FoundFits(steps, frames, sim, gap);
      RecordingChangesIff(View(), obsId, frames, ds);
      if recorded || ds == [] {
        return false;
      }
      AddHypotheses(obsId, frames, ds);
      changed := true;
    }

    static method ShiftHypotheses(hyps: seq<Hypothesis>, at: nat, edit: Edit) returns (kept: seq<Hypothesis>)
      ensures kept == ShiftedHyps(hyps, at, edit)
    {
      kept := [];
      for k := 0 to |hyps|
        invariant kept + ShiftedHyps(hyps[k..], at, edit) == ShiftedHyps(hyps, at, edit)
      {
        var h := Moved(hyps[k], at, edit);
        assert hyps[k..][1..] == hyps[k + 1..];
        if !Emptied(h) {
          kept := kept + [h];
        }
      }
    }

    static lemma ShiftedStep(branches: seq<Branch>, k: nat, at: nat, edit: Edit, steps: seq<Step>)
      requires k < |branches|
      ensures ShiftedBranches(branches[k..], at, edit, steps) ==
              (match ShiftedBranch(branches[k], at, edit, steps) case None => [] case Some(b) => [b])
              + ShiftedBranches(branches[k + 1..], at, edit, steps)
    {
      hide ShiftedBranch;
      assert branches[k..][1..] == branches[k + 1..];
    }

    static lemma ShiftedNone(at: nat, edit: Edit, steps: seq<Step>)
      ensures ShiftedBranches([], at, edit, steps) == []
    {
    }

    static method ShiftBranches(branches: seq<Branch>, at: nat, edit: Edit, steps: seq<Step>) returns (kept: seq<Branch>)
      ensures kept == ShiftedBranches(branches, at, edit, steps)
    {
      hide ShiftedBranch, ShiftedBranches;
      kept := [];
      assert branches[0..] == branches;
      ShiftedNone(at, edit, steps);
      for k := 0 to |branches|
        invariant kept + ShiftedBranches(branches[k..], at, edit, steps) == ShiftedBranches(branches, at, edit, steps)
      {
        var b := ShiftedBranch(branches[k], at, edit, steps);
        ShiftedStep(branches, k, at, edit, steps);
        if b.Some? {
          kept := kept + [b.value];
        }
      }
      assert branches[|branches|..] == [];
    }

    /** A step edit, already made, carried over to everything that names steps by
        position; a delta that is neither edit is refused. */
    method ShiftSteps(at: nat, delta: int) returns (outcome: Outcome)
      modifies this
      ensures delta != 1 && delta != -1 ==> outcome == BadDelta && View() == old(View())
      ensures delta == 1 ==> outcome == Done && View() == Shifted(old(View()), at, Inserted, old(steps))
      ensures delta == -1 ==> outcome == Done && View() == Shifted(old(View()), at, Removed, old(steps))
    {
      if delta != 1 && delta != -1 {
        return BadDelta;
      }
      var edit := if delta > 0 then Inserted else Removed;
      hypotheses := ShiftHypotheses(hypotheses, at, edit);
      branches := ShiftBranches(branches, at, edit, steps);
      outcome := Done;
    }

    /** A restored step. */
    method Insert(at: nat, step: Step)
      requires at <= |steps|
      modifies this
      ensures View() == InsertStep(old(View()), at, step)
    {
      steps := steps[..at] + [step] + steps[at..];
      var _ := ShiftSteps(at, 1);
    }

    /** A removed step. */
    method Remove(at: nat)
      requires at < |steps|
      modifies this
      ensures View() == RemoveStep(old(View()), at)
    {
      steps := steps[..at] + steps[at + 1..];
      var _ := ShiftSteps(at, -1);
    }
  }
}
