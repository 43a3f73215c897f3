/**
 Divergence mining: where an observed run leaves a Skill's steps
 (`find_divergences`).  A place is an app and a document; frames and steps
 carry theirs.  The alignment of the two sides comes from module Alignment.
 */
module BranchMining {
  import opened Common
  import Alignment

  // ---------------------------------------------------------------- places

  datatype Place = Place(app: string, doc: string)

  /** The host of a web page, the place itself otherwise. */
  function SiteOf(doc: string): string {
    var host := UpTo(doc, '/');
    if '/' in doc && '.' in host && ' ' !in host then host else doc
  }

  function Site(p: Place): Place { Place(p.app, SiteOf(p.doc)) }

  /** A web host: dotted, with no blank and no slash. */
  predicate IsHost(host: string) { '.' in host && ' ' !in host && '/' !in host }

  /** The host itself, or a page of it. */
  predicate OfHost(doc: string, host: string) { doc == host || host + "/" <= doc }

  /** Two places of one app are of one site when they are the same or of one host. */
  ghost predicate OneSite(p: Place, q: Place) {
    p.app == q.app && (p.doc == q.doc || exists host :: IsHost(host) && OfHost(p.doc, host) && OfHost(q.doc, host))
  }

  lemma {:induction false} UpToFacts(s: string, c: char)
    ensures c !in UpTo(s, c)
    ensures if c in s then UpTo(s, c) + [c] <= s else UpTo(s, c) == s
  {
    if s != [] && s[0] != c {
      UpToFacts(s[1..], c);
      var before, rest := UpTo(s[1..], c), s[1..];
      assert UpTo(s, c) == [s[0]] + before && s == [s[0]] + rest;
      if c in rest { assert rest == before + [c] + rest[|before| + 1..]; }
      hide UpTo;
    }
  }

  lemma {:induction false} UpToIs(a: string, c: char, rest: string)
    requires c !in a
    ensures UpTo(a + [c] + rest, c) == a
  {
    var s := a + [c] + rest;
    if a != [] {
      assert s[1..] == a[1..] + [c] + rest;
      UpToIs(a[1..], c, rest);
    }
  }

  /** The site of a page is its host; what is no page of a host is its own site. */
  lemma SiteOfHost(doc: string, host: string)
    requires IsHost(host) && OfHost(doc, host)
    ensures SiteOf(doc) == host
  {
    if host + "/" <= doc {
      UpToIs(host, '/', doc[|host| + 1..]);
      assert doc == host + ['/'] + doc[|host| + 1..];
    }
  }

  lemma SiteOfOther(doc: string)
    requires forall host | IsHost(host) :: !OfHost(doc, host)
    ensures SiteOf(doc) == doc
  {
    UpToFacts(doc, '/');
    assert !(IsHost(UpTo(doc, '/')) && OfHost(doc, UpTo(doc, '/')));
  }

  /** Places share a site exactly when they are of one site. */
  lemma SiteIff(p: Place, q: Place)
    ensures Site(p) == Site(q) <==> OneSite(p, q)
  {
    hide SiteOf, IsHost, OfHost;
    var s, t := SiteOf(p.doc), SiteOf(q.doc);
    if host :| IsHost(host) && OfHost(p.doc, host) {
      SiteOfHost(p.doc, host);
      if other :| IsHost(other) && OfHost(q.doc, other) {
        SiteOfHost(q.doc, other);
      } else {
        SiteOfOther(q.doc);
        HostItself(q.doc);
      }
    } else {
      SiteOfOther(p.doc);
      HostItself(p.doc);
      if other :| IsHost(other) && OfHost(q.doc, other) {
        SiteOfHost(q.doc, other);
      } else {
        SiteOfOther(q.doc);
      }
    }
    forall host | IsHost(host)
      ensures OfHost(p.doc, host) ==> s == host
      ensures OfHost(q.doc, host) ==> t == host
    {
      if OfHost(p.doc, host) { SiteOfHost(p.doc, host); }
      if OfHost(q.doc, host) { SiteOfHost(q.doc, host); }
    }
  }

  lemma HostItself(host: string)
    ensures OfHost(host, host)
  {
  }

  // ---------------------------------------------------------- the two sides

  /** A step; `place` is None when it has neither app nor location. */
  datatype Step = Step(action: string, place: Option<Place>)

  /** What a frame's screen shows: list entries, stripped non-empty OCR lines, URL. */
  datatype Screen = Screen(items: seq<string>, lines: seq<string>, url: string)

  datatype Frame = Frame(eventId: string, whatDoing: string, app: string, location: string, place: Place, screen: Screen)

  datatype CanonStep = CanonStep(index: nat, place: Place)

  datatype Run = Run(place: Place, first: nat)

  /** Those of the first `n` steps that have a place, with their positions. */
  function CanonTo(steps: seq<Step>, n: nat): seq<CanonStep>
    requires n <= |steps|
  {
    if n == 0 then [] else
      CanonTo(steps, n - 1)
      + if steps[n - 1].place.Some? then [CanonStep(n - 1, steps[n - 1].place.value)] else []
  }

  function Canon(steps: seq<Step>): seq<CanonStep> { CanonTo(steps, |steps|) }

  function Visited(runs: seq<Run>): set<Place> { set r | r in runs :: r.place }

  function AddFrame(runs: seq<Run>, place: Place, n: nat): seq<Run> {
    if runs == [] || runs[|runs| - 1].place != place then runs + [Run(place, n)] else runs
  }

  /** The places the first `n` frames visit, run-length collapsed, each with its first frame. */
  function RunsTo(frames: seq<Frame>, n: nat): seq<Run>
    requires n <= |frames|
  {
    if n == 0 then [] else AddFrame(RunsTo(frames, n - 1), frames[n - 1].place, n - 1)
  }

  function Runs(frames: seq<Frame>): seq<Run> { RunsTo(frames, |frames|) }

  /** Frame `f` is the first of a visit. */
  ghost predicate VisitStart(frames: seq<Frame>, f: nat) {
    f < |frames| && (f == 0 || frames[f - 1].place != frames[f].place)
  }

  ghost predicate CanonOf(canon: seq<CanonStep>, steps: seq<Step>, n: nat)
    requires n <= |steps|
  {
    && (forall a | 0 <= a < |canon| :: canon[a].index < n && steps[canon[a].index].place == Some(canon[a].place))
    && (forall a, b | 0 <= a < b < |canon| :: canon[a].index < canon[b].index)
    && (forall i | 0 <= i < n && steps[i].place.Some? :: CanonStep(i, steps[i].place.value) in canon)
  }

  lemma {:induction false} CanonFacts(steps: seq<Step>, n: nat)
    requires n <= |steps|
    ensures CanonOf(CanonTo(steps, n), steps, n)
  {
    if n > 0 {
      hide CanonOf;
      CanonFacts(steps, n - 1);
      CanonMore(CanonTo(steps, n - 1), steps, n - 1);
    }
  }

  lemma CanonMore(canon: seq<CanonStep>, steps: seq<Step>, n: nat)
    requires n < |steps| && CanonOf(canon, steps, n)
    ensures CanonOf(canon + if steps[n].place.Some? then [CanonStep(n, steps[n].place.value)] else [], steps, n + 1)
  {
    if steps[n].place.Some? {
      var next := canon + [CanonStep(n, steps[n].place.value)];
      assert next[|canon|] in next;
      assert forall a | 0 <= a < |canon| :: next[a] == canon[a];
    } else {
      assert canon + [] == canon;
    }
  }

  ghost predicate RunsOf(runs: seq<Run>, frames: seq<Frame>, n: nat)
    requires n <= |frames|
  {
    && (forall r | 0 <= r < |runs| ::
          runs[r].first < n && VisitStart(frames, runs[r].first) && frames[runs[r].first].place == runs[r].place)
    && (forall r, s | 0 <= r < s < |runs| :: runs[r].first < runs[s].first)
    && (forall f: nat {:trigger VisitStart(frames, f)} | f < n && VisitStart(frames, f) :: Run(frames[f].place, f) in runs)
    && (n == 0 <==> runs == [])
    && (n > 0 ==> runs[|runs| - 1].place == frames[n - 1].place)
  }

  lemma {:induction false} RunsFacts(frames: seq<Frame>, n: nat)
    requires n <= |frames|
    ensures RunsOf(RunsTo(frames, n), frames, n)
  {
    if n > 0 {
      RunsFacts(frames, n - 1);
      RunsStep(RunsTo(frames, n - 1), RunsTo(frames, n), frames, n);
    }
  }

  lemma RunsStep(runs: seq<Run>, next: seq<Run>, frames: seq<Frame>, n: nat)
    requires 0 < n <= |frames| && RunsOf(runs, frames, n - 1)
    requires next == AddFrame(runs, frames[n - 1].place, n - 1)
    ensures RunsOf(next, frames, n)
  {
    var last := n - 1;
    assert VisitStart(frames, last) <==> next != runs;
    hide VisitStart;
    if next != runs {
      assert next == runs + [Run(frames[last].place, last)];
    }
    forall f: nat {:trigger VisitStart(frames, f)} | f < n && VisitStart(frames, f)
      ensures Run(frames[f].place, f) in next
    {
      assert f < last ==> Run(frames[f].place, f) in runs;
    }
  }

  /** The places of the visits are the places of the frames. */
  lemma {:induction false} VisitedFrames(frames: seq<Frame>, n: nat, f: nat)
    requires f < n <= |frames|
    ensures frames[f].place in Visited(RunsTo(frames, n))
  {
    var runs, next := RunsTo(frames, n - 1), RunsTo(frames, n);
    if f < n - 1 {
      VisitedFrames(frames, n - 1, f);
      var r :| r in runs && r.place == frames[f].place;
      assert r in next;
    } else {
      assert next[|next| - 1].place == frames[f].place && next[|next| - 1] in next;
    }
  }

  // ---------------------------------------------------------------- columns

  /** The quantified form of a monotone global alignment. */
  ghost predicate Monotone(al: seq<Alignment.Column>, i: nat, j: nat, m: nat, n: nat) {
    && (forall c | 0 <= c < |al| :: al[c].a.Some? || al[c].b.Some?)
    && (forall c | 0 <= c < |al| && al[c].a.Some? :: i <= al[c].a.value < m)
    && (forall c | 0 <= c < |al| && al[c].b.Some? :: j <= al[c].b.value < n)
    && (forall c, d | 0 <= c < d < |al| && al[c].a.Some? && al[d].a.Some? :: al[c].a.value < al[d].a.value)
    && (forall c, d | 0 <= c < d < |al| && al[c].b.Some? && al[d].b.Some? :: al[c].b.value < al[d].b.value)
    && (forall x: nat | i <= x < m :: HasFirst(al, x))
    && (forall y: nat | j <= y < n :: HasSecond(al, y))
  }

  ghost predicate HasFirst(al: seq<Alignment.Column>, x: nat) {
    exists c :: 0 <= c < |al| && al[c].a == Some(x)
  }

  ghost predicate HasSecond(al: seq<Alignment.Column>, y: nat) {
    exists c :: 0 <= c < |al| && al[c].b == Some(y)
  }

  lemma {:induction false} AlignsIsMonotone(al: seq<Alignment.Column>, i: nat, j: nat, m: nat, n: nat)
    requires Alignment.Aligns(al, i, j, m, n)
    ensures i <= m && j <= n && Monotone(al, i, j, m, n)
    decreases |al|
  {
    if al != [] {
      var i', j' := if al[0].a.Some? then i + 1 else i, if al[0].b.Some? then j + 1 else j;
      AlignsIsMonotone(al[1..], i', j', m, n);
      MonotoneCons(al, i, j, i', j', m, n);
    }
  }

  lemma MonotoneCons(al: seq<Alignment.Column>, i: nat, j: nat, i': nat, j': nat, m: nat, n: nat)
    requires al != [] && (al[0].a.Some? || al[0].b.Some?)
    requires if al[0].a.Some? then al[0].a.value == i && i' == i + 1 else i' == i
    requires if al[0].b.Some? then al[0].b.value == j && j' == j + 1 else j' == j
    requires i' <= m && j' <= n && Monotone(al[1..], i', j', m, n)
    ensures Monotone(al, i, j, m, n)
  {
    var rest := al[1..];
    assert forall c | 0 < c < |al| :: al[c] == rest[c - 1];
    forall x: nat | i <= x < m
      ensures HasFirst(al, x)
    {
      if x < i' { assert al[0].a == Some(x); } else {
        assert HasFirst(rest, x);
        var c :| 0 <= c < |rest| && rest[c].a == Some(x);
        assert al[c + 1].a == Some(x);
      }
    }
    forall y: nat | j <= y < n
      ensures HasSecond(al, y)
    {
      if y < j' { assert al[0].b == Some(y); } else {
        assert HasSecond(rest, y);
        var c :| 0 <= c < |rest| && rest[c].b == Some(y);
        assert al[c + 1].b == Some(y);
      }
    }
  }

  datatype Verdict = Agrees | Diverges | Undecided

  /** An aligned column read as a step, a visit and a verdict. */
  datatype Col = Col(step: Option<nat>, run: Option<nat>, verdict: Verdict)

  predicate InRange(c: Alignment.Column, canon: seq<CanonStep>, runs: seq<Run>) {
    (c.a.Some? || c.b.Some?) && (c.a.Some? ==> c.a.value < |canon|) && (c.b.Some? ==> c.b.value < |runs|)
  }

  /** A canonical step paired with a visit of its own site counts as done there. */
  predicate Performs(c: Alignment.Column, canon: seq<CanonStep>, runs: seq<Run>)
    requires InRange(c, canon, runs)
  {
    c.a.Some? && c.b.Some? && Site(runs[c.b.value].place) == Site(canon[c.a.value].place)
  }

  function Performed(al: seq<Alignment.Column>, canon: seq<CanonStep>, runs: seq<Run>): set<Place>
    requires forall c | c in al :: InRange(c, canon, runs)
  {
    set c | c in al && Performs(c, canon, runs) :: runs[c.b.value].place
  }

  /** The canonical places and those a step was performed on. */
  function Known(al: seq<Alignment.Column>, canon: seq<CanonStep>, runs: seq<Run>): set<Place>
    requires forall c | c in al :: InRange(c, canon, runs)
  {
    (set s | s in canon :: s.place) + Performed(al, canon, runs)
  }

  function Classify(c: Alignment.Column, canon: seq<CanonStep>, runs: seq<Run>, known: set<Place>): Col
    requires InRange(c, canon, runs)
  {
    var step := if c.a.Some? then Some(canon[c.a.value].index) else None;
    if c.b.None? then
      Col(step, None, if canon[c.a.value].place !in Visited(runs) then Diverges else Undecided)
    else if Performs(c, canon, runs) then
      Col(step, c.b, Agrees)
    else
      var skipped := c.a.Some? && canon[c.a.value].place !in Visited(runs);
      var newPlace := runs[c.b.value].place !in known;
      Col(step, if newPlace || !skipped then c.b else None, if skipped || newPlace then Diverges else Agrees)
  }

  function Columns(al: seq<Alignment.Column>, canon: seq<CanonStep>, runs: seq<Run>, known: set<Place>): (cols: seq<Col>)
    requires forall c | c in al :: InRange(c, canon, runs)
    ensures |cols| == |al|
    ensures forall k | 0 <= k < |al| :: cols[k] == Classify(al[k], canon, runs, known)
  {
    seq(|al|, k requires 0 <= k < |al| => Classify(al[k], canon, runs, known))
  }

  /** Steps and visits of the columns come in order and in range. */
  ghost predicate Ordered(cols: seq<Col>, nSteps: nat, nRuns: nat) {
    && (forall c | 0 <= c < |cols| && cols[c].step.Some? :: cols[c].step.value < nSteps)
    && (forall c | 0 <= c < |cols| && cols[c].run.Some? :: cols[c].run.value < nRuns)
    && (forall c, d | 0 <= c < d < |cols| && cols[c].step.Some? && cols[d].step.Some? :: cols[c].step.value < cols[d].step.value)
    && (forall c, d | 0 <= c < d < |cols| && cols[c].run.Some? && cols[d].run.Some? :: cols[c].run.value < cols[d].run.value)
    && (forall c | 0 <= c < |cols| && cols[c].verdict == Diverges :: cols[c].step.Some? || cols[c].run.Some?)
  }

  // ------------------------------------------------------------------ spans

  datatype Span = Span(first: nat, last: nat)

  predicate AllUndecided(cols: seq<Col>, lo: nat, hi: nat) {
    forall d | lo <= d < hi && d < |cols| :: cols[d].verdict == Undecided
  }

  function AddColumn(cols: seq<Col>, c: nat, spans: seq<Span>): seq<Span>
    requires c < |cols|
  {
    if cols[c].verdict != Diverges then spans
    else if spans != [] && AllUndecided(cols, spans[|spans| - 1].last + 1, c) then
      spans[|spans| - 1 := Span(spans[|spans| - 1].first, c)]
    else spans + [Span(c, c)]
  }

  /** Ordered, disjoint, before column `n`, and each begins and ends on a diverging column. */
  ghost predicate Disjoint(spans: seq<Span>, cols: seq<Col>, n: nat)
    requires n <= |cols|
  {
    && (forall k | 0 <= k < |spans| :: spans[k].first <= spans[k].last < n)
    && (forall k | 0 <= k < |spans| :: cols[spans[k].first].verdict == Diverges && cols[spans[k].last].verdict == Diverges)
    && (forall k, l | 0 <= k < l < |spans| :: spans[k].last < spans[l].first)
  }

  ghost predicate Covers(spans: seq<Span>, c: nat) {
    exists k :: 0 <= k < |spans| && spans[k].first <= c <= spans[k].last
  }

  ghost predicate CoversDiverging(spans: seq<Span>, cols: seq<Col>, n: nat)
    requires n <= |cols|
  {
    forall c: nat {:trigger Covers(spans, c)} | c < n && cols[c].verdict == Diverges :: Covers(spans, c)
  }

  lemma SpansStep(cols: seq<Col>, n: nat, spans: seq<Span>)
    requires n < |cols| && Disjoint(spans, cols, n) && CoversDiverging(spans, cols, n)
    ensures Disjoint(AddColumn(cols, n, spans), cols, n + 1) && CoversDiverging(AddColumn(cols, n, spans), cols, n + 1)
  {
    var next := AddColumn(cols, n, spans);
    assert Disjoint(next, cols, n + 1) by {
      assert forall k | 0 <= k < |next| - 1 :: next[k] == spans[k];
    }
    forall c: nat | c < n + 1 && cols[c].verdict == Diverges
      ensures Covers(next, c)
    {
      if c == n {
        assert next[|next| - 1].first <= n <= next[|next| - 1].last;
      } else {
        assert Covers(spans, c);
        CoverKept(spans, next, c);
      }
    }
  }

  /** Lengthening spans, or adding to them, uncovers nothing. */
  lemma CoverKept(spans: seq<Span>, next: seq<Span>, c: nat)
    requires Covers(spans, c) && |spans| <= |next|
    requires forall k | 0 <= k < |spans| :: next[k].first == spans[k].first && next[k].last >= spans[k].last
    ensures Covers(next, c)
  {
    var k :| 0 <= k < |spans| && spans[k].first <= c <= spans[k].last;
    assert next[k].first <= c <= next[k].last;
  }

  /** Runs of diverging columns among the first `n`, contiguous but for undecided ones. */
  function SpansTo(cols: seq<Col>, n: nat): (spans: seq<Span>)
    requires n <= |cols|
    ensures Disjoint(spans, cols, n) && CoversDiverging(spans, cols, n)
  {
    hide AddColumn, Disjoint, CoversDiverging;
    if n == 0 then
      SpansOfNone(cols);
      []
    else
      var spans := SpansTo(cols, n - 1);
      SpansStep(cols, n - 1, spans);
      AddColumn(cols, n - 1, spans)
  }

  lemma SpansOfNone(cols: seq<Col>)
    ensures Disjoint([], cols, 0) && CoversDiverging([], cols, 0)
  {
  }

  function Spans(cols: seq<Col>): (spans: seq<Span>)
    ensures Disjoint(spans, cols, |cols|) && InBounds(spans, cols)
  {
    SpansTo(cols, |cols|)
  }

  predicate InBounds(spans: seq<Span>, cols: seq<Col>) {
    forall k | 0 <= k < |spans| :: spans[k].first <= spans[k].last < |cols|
  }

  predicate RunsInRange(cols: seq<Col>, runs: seq<Run>) {
    forall c | 0 <= c < |cols| && cols[c].run.Some? :: cols[c].run.value < |runs|
  }

  function PlacesOf(span: Span, cols: seq<Col>, runs: seq<Run>): set<Place> {
    set c | span.first <= c <= span.last && c < |cols| && cols[c].run.Some? && cols[c].run.value < |runs|
      :: runs[cols[c].run.value].place
  }

  /** A detour stepped out of for at most this many columns and returned to is one detour. */
  const DETOUR_RETURN_COLUMNS := 2

  /** `span` continues the detour `last`. */
  predicate Continues(span: Span, last: Span, cols: seq<Col>, runs: seq<Run>) {
    PlacesOf(span, cols, runs) != {} && PlacesOf(span, cols, runs) <= PlacesOf(last, cols, runs)
    && span.first as int - last.last as int - 1 <= DETOUR_RETURN_COLUMNS
  }

  function AddSpan(span: Span, merged: seq<Span>, cols: seq<Col>, runs: seq<Run>): seq<Span> {
    if merged != [] && Continues(span, merged[|merged| - 1], cols, runs)
    then merged[|merged| - 1 := Span(merged[|merged| - 1].first, span.last)]
    else merged + [span]
  }

  /** The first `n` spans, a return to the detour just before joined to it. */
  function MergedTo(spans: seq<Span>, n: nat, cols: seq<Col>, runs: seq<Run>): seq<Span>
    requires n <= |spans|
  {
    if n == 0 then [] else AddSpan(spans[n - 1], MergedTo(spans, n - 1, cols, runs), cols, runs)
  }

  lemma AddSpanExtends(span: Span, merged: seq<Span>, cols: seq<Col>, runs: seq<Run>)
    ensures Extended(merged, span, AddSpan(span, merged, cols, runs))
  {
  }

  ghost predicate MergeOf(merged: seq<Span>, spans: seq<Span>, n: nat, cols: seq<Col>)
    requires n <= |spans|
  {
    && Disjoint(merged, cols, |cols|)
    && (n == 0 ==> merged == [])
    && (n > 0 ==> forall k | 0 <= k < |merged| :: merged[k].last <= spans[n - 1].last)
    && (forall k | 0 <= k < n :: Within(spans[k], merged))
  }

  lemma MergeStep(merged: seq<Span>, next: seq<Span>, spans: seq<Span>, n: nat, cols: seq<Col>)
    requires 0 < n <= |spans| && Disjoint(spans, cols, |cols|)
    requires MergeOf(merged, spans, n - 1, cols) && Extended(merged, spans[n - 1], next)
    ensures MergeOf(next, spans, n, cols)
  {
    ExtendedInOrder(merged, spans[n - 1], next, cols, |cols|);
    ExtendedKeeps(merged, spans[n - 1], next);
  }

  lemma {:induction false} MergedFacts(spans: seq<Span>, n: nat, cols: seq<Col>, runs: seq<Run>)
    requires n <= |spans| && Disjoint(spans, cols, |cols|)
    ensures MergeOf(MergedTo(spans, n, cols, runs), spans, n, cols)
  {
    if n > 0 {
      MergedFacts(spans, n - 1, cols, runs);
      AddSpanExtends(spans[n - 1], MergedTo(spans, n - 1, cols, runs), cols, runs);
      MergeStep(MergedTo(spans, n - 1, cols, runs), MergedTo(spans, n, cols, runs), spans, n, cols);
    }
  }

  /** `next` is `spans` with its last span lengthened to the end of `span`, or with `span` after it. */
  ghost predicate Extended(spans: seq<Span>, span: Span, next: seq<Span>) {
    || (spans != [] && next == spans[..|spans| - 1] + [Span(spans[|spans| - 1].first, span.last)])
    || next == spans + [span]
  }

  lemma ExtendedInOrder(spans: seq<Span>, span: Span, next: seq<Span>, cols: seq<Col>, n: nat)
    requires n <= |cols| && Disjoint(spans, cols, n) && span.first <= span.last < n && Extended(spans, span, next)
    requires cols[span.first].verdict == Diverges && cols[span.last].verdict == Diverges
    requires forall k | 0 <= k < |spans| :: spans[k].last < span.first
    ensures Disjoint(next, cols, n)
    ensures forall k | 0 <= k < |next| :: next[k].last <= span.last
  {
    assert forall k | 0 <= k < |next| - 1 :: next[k] == spans[k];
  }

  lemma ExtendedKeeps(spans: seq<Span>, span: Span, next: seq<Span>)
    requires span.first <= span.last && Extended(spans, span, next)
    requires forall k | 0 <= k < |spans| :: spans[k].first <= spans[k].last < span.first
    ensures forall s: Span :: Within(s, spans) || s == span ==> Within(s, next)
  {
    forall s: Span | Within(s, spans) || s == span
      ensures Within(s, next)
    {
      if Within(s, spans) {
        var k :| 0 <= k < |spans| && spans[k].first <= s.first && s.last <= spans[k].last;
        assert next[k].first <= s.first && s.last <= next[k].last;
      } else {
        assert next[|next| - 1].first <= s.first && s.last <= next[|next| - 1].last;
      }
    }
  }

  /** `s` is part of one of `spans`. */
  ghost predicate Within(s: Span, spans: seq<Span>) {
    exists k :: 0 <= k < |spans| && spans[k].first <= s.first && s.last <= spans[k].last
  }

  // ------------------------------------------------------------ divergences

  function StepsIn(cols: seq<Col>): seq<nat> {
    if cols == [] then [] else (if cols[0].step.Some? then [cols[0].step.value] else []) + StepsIn(cols[1..])
  }

  function RunsIn(cols: seq<Col>, runs: seq<Run>): (rs: seq<nat>)
    requires RunsInRange(cols, runs)
    ensures forall k | 0 <= k < |rs| :: rs[k] < |runs|
  {
    if cols == [] then [] else
      (if cols[0].run.Some? then [cols[0].run.value] else []) + RunsIn(cols[1..], runs)
  }

  /** Step and frame positions of one divergence: the steps in
      [stepIndex, rejoinIndex) are replaced by the visits starting at the frames
      of `alternative` (none: a skip), decided on the screen of frame `conditionAt`. */
  datatype Divergence = Divergence(stepIndex: nat, rejoinIndex: nat, conditionAt: nat, alternative: seq<nat>)

  /** The first step of the columns from `pos` on, else the end of the steps. */
  function After(cols: seq<Col>, pos: nat, nSteps: nat): nat
    requires pos <= |cols|
  {
    var later := StepsIn(cols[pos..]);
    if later != [] then later[0] else nSteps
  }

  function Replaced(span: Span, cols: seq<Col>): seq<nat>
    requires span.first <= span.last < |cols|
  {
    StepsIn(cols[span.first..span.last + 1])
  }

  function StepIndex(span: Span, cols: seq<Col>, nSteps: nat): nat
    requires span.first <= span.last < |cols|
  {
    if Replaced(span, cols) != [] then Replaced(span, cols)[0] else After(cols, span.last + 1, nSteps)
  }

  function RejoinIndex(span: Span, cols: seq<Col>, nSteps: nat): nat
    requires span.first <= span.last < |cols|
  {
    var replaced := Replaced(span, cols);
    if replaced != [] then replaced[|replaced| - 1] + 1 else After(cols, span.last + 1, nSteps)
  }

  /** The frame before the first alternative one; for a skip, the first frame of the visit before. */
  function ConditionAt(span: Span, cols: seq<Col>, runs: seq<Run>): nat
    requires span.first <= span.last < |cols| && RunsInRange(cols, runs)
  {
    var alternative := RunsIn(cols[span.first..span.last + 1], runs);
    var before := RunsIn(cols[..span.first], runs);
    if alternative != [] then (if runs[alternative[0]].first > 0 then runs[alternative[0]].first - 1 else 0)
    else if before != [] then runs[before[|before| - 1]].first
    else 0
  }

  function Alternative(span: Span, cols: seq<Col>, runs: seq<Run>): seq<nat>
    requires span.first <= span.last < |cols| && RunsInRange(cols, runs)
  {
    var inside := RunsIn(cols[span.first..span.last + 1], runs);
    seq(|inside|, k requires 0 <= k < |inside| => runs[inside[k]].first)
  }

  function Diverge(span: Span, cols: seq<Col>, runs: seq<Run>, nSteps: nat): Divergence
    requires span.first <= span.last < |cols| && RunsInRange(cols, runs)
  {
    Divergence(StepIndex(span, cols, nSteps), RejoinIndex(span, cols, nSteps),
               ConditionAt(span, cols, runs), Alternative(span, cols, runs))
  }

  /** The alignment's columns, classified. */
  function Classified(al: seq<Alignment.Column>, canon: seq<CanonStep>, runs: seq<Run>): (cols: seq<Col>)
    requires forall c | c in al :: InRange(c, canon, runs)
    ensures RunsInRange(cols, runs)
  {
    var cols := Columns(al, canon, runs, Known(al, canon, runs));
    assert forall k | 0 <= k < |al| :: al[k] in al;
    cols
  }

  function Detours(cols: seq<Col>, runs: seq<Run>): (detours: seq<Span>)
    ensures Disjoint(detours, cols, |cols|)
  {
    MergedFacts(Spans(cols), |Spans(cols)|, cols, runs);
    MergedTo(Spans(cols), |Spans(cols)|, cols, runs)
  }

  /** `later` begins with the spans of `earlier`, of which only the last may be longer. */
  ghost predicate Grown(earlier: seq<Span>, later: seq<Span>) {
    && |earlier| <= |later|
    && (forall k | 0 <= k < |earlier| :: later[k].first == earlier[k].first && earlier[k].last <= later[k].last)
    && (forall k | 0 <= k < |earlier| - 1 :: later[k].last == earlier[k].last)
  }

  lemma GrownTwice(a: seq<Span>, b: seq<Span>, c: seq<Span>)
    requires Grown(a, b) && Grown(b, c)
    ensures Grown(a, c)
  {
  }

  lemma AddColumnGrows(cols: seq<Col>, c: nat, spans: seq<Span>)
    requires c < |cols| && (spans != [] ==> spans[|spans| - 1].last <= c)
    ensures Grown(spans, AddColumn(cols, c, spans))
  {
    hide AllUndecided;
  }

  lemma NextSpansGrow(cols: seq<Col>, n: nat)
    requires n < |cols|
    ensures Grown(SpansTo(cols, n), SpansTo(cols, n + 1))
  {
    hide CoversDiverging, AddColumn, Grown;
    AddColumnGrows(cols, n, SpansTo(cols, n));
  }

  lemma GrownSame(spans: seq<Span>)
    ensures Grown(spans, spans)
  {
  }

  lemma {:induction false} SpansGrow(cols: seq<Col>, m: nat, n: nat)
    requires m <= n <= |cols|
    ensures Grown(SpansTo(cols, m), SpansTo(cols, n))
  {
    hide Disjoint, CoversDiverging, AddColumn, Grown, SpansTo;
    if m < n {
      SpansGrow(cols, m, n - 1);
      NextSpansGrow(cols, n - 1);
      GrownTwice(SpansTo(cols, m), SpansTo(cols, n - 1), SpansTo(cols, n));
    } else {
      GrownSame(SpansTo(cols, n));
    }
  }

  lemma {:induction false} SpansStay(cols: seq<Col>, m: nat, n: nat)
    requires m <= n <= |cols| && forall d | m <= d < n :: cols[d].verdict != Diverges
    ensures SpansTo(cols, n) == SpansTo(cols, m)
  {
    hide AllUndecided, CoversDiverging, Disjoint;
    if m < n {
      SpansStay(cols, m, n - 1);
    }
  }

  /** Two diverging columns with none between them are in one span if and only if
      every column between them is undecided. */
  lemma ContiguousIff(cols: seq<Col>, c: nat, d: nat) returns (k: nat)
    requires c < d < |cols| && cols[c].verdict == Diverges && cols[d].verdict == Diverges
    requires forall x | c < x < d :: cols[x].verdict != Diverges
    ensures k < |Spans(cols)| && Spans(cols)[k].first <= c <= Spans(cols)[k].last
    ensures d <= Spans(cols)[k].last <==> forall x | c < x < d :: cols[x].verdict == Undecided
  {
    hide SpansTo, AddColumn, AllUndecided, Disjoint, CoversDiverging, Grown, InBounds;
    var upTo, next := c + 1, d + 1;
    SpansNext(cols, c);
    SpansStay(cols, upTo, d);
    SpansNext(cols, d);
    SpansGrow(cols, next, |cols|);
    k := |SpansTo(cols, upTo)| - 1;
    JoinedIff(cols, d, SpansTo(cols, upTo), SpansTo(cols, |cols|), c);
    UndecidedBetween(cols, c, d);
  }

  lemma UndecidedBetween(cols: seq<Col>, c: nat, d: nat)
    requires c < d < |cols|
    ensures AllUndecided(cols, c + 1, d) <==> forall x | c < x < d :: cols[x].verdict == Undecided
  {
  }

  lemma SpansNext(cols: seq<Col>, n: nat)
    requires n < |cols|
    ensures SpansTo(cols, n + 1) == AddColumn(cols, n, SpansTo(cols, n))
    ensures
      var spans := SpansTo(cols, n + 1);
      cols[n].verdict == Diverges ==> spans != [] && spans[|spans| - 1].first <= n == spans[|spans| - 1].last
  {
    hide AllUndecided, CoversDiverging;
  }

  lemma JoinedIff(cols: seq<Col>, d: nat, before: seq<Span>, later: seq<Span>, c: nat)
    requires c < d < |cols| && cols[d].verdict == Diverges
    requires before != [] && before[|before| - 1].last == c && Grown(AddColumn(cols, d, before), later)
    ensures |before| <= |later|
    ensures d <= later[|before| - 1].last <==> AllUndecided(cols, c + 1, d)
    ensures later[|before| - 1].first == before[|before| - 1].first && c <= later[|before| - 1].last
  {
    hide AllUndecided;
    var k := |before| - 1;
    var after := AddColumn(cols, d, before);
    if AllUndecided(cols, c + 1, d) {
      assert after[k] == Span(before[k].first, d);
    } else {
      assert after == before + [Span(d, d)] && after[k] == before[k];
    }
  }

  lemma {:induction false} MergedEnds(spans: seq<Span>, n: nat, cols: seq<Col>, runs: seq<Run>)
    requires 0 < n <= |spans| && Disjoint(spans, cols, |cols|)
    ensures
      var merged := MergedTo(spans, n, cols, runs);
      merged != [] && merged[|merged| - 1].last == spans[n - 1].last && merged[|merged| - 1].first <= spans[n - 1].first
  {
    hide Continues;
    if n > 1 {
      MergedEnds(spans, n - 1, cols, runs);
    }
  }

  lemma {:induction false} MergedGrow(spans: seq<Span>, m: nat, n: nat, cols: seq<Col>, runs: seq<Run>)
    requires 0 < m <= n <= |spans| && Disjoint(spans, cols, |cols|)
    ensures Grown(MergedTo(spans, m, cols, runs), MergedTo(spans, n, cols, runs))
  {
    hide Continues;
    if m < n {
      MergedGrow(spans, m, n - 1, cols, runs);
      MergedEnds(spans, n - 1, cols, runs);
      GrownTwice(MergedTo(spans, m, cols, runs), MergedTo(spans, n - 1, cols, runs), MergedTo(spans, n, cols, runs));
    }
  }

  /** A span is part of the same detour as the span before it if and only if it goes
      back to places of that detour, as it stood then, at most two columns later. */
  lemma SameDetourIff(cols: seq<Col>, runs: seq<Run>, j: nat) returns (k: nat)
    requires RunsInRange(cols, runs) && 0 < j < |Spans(cols)|
    ensures k < |Detours(cols, runs)|
    ensures Detours(cols, runs)[k].first <= Spans(cols)[j - 1].first && Spans(cols)[j - 1].last <= Detours(cols, runs)[k].last
    ensures Spans(cols)[j].last <= Detours(cols, runs)[k].last <==>
            && Spans(cols)[j].first - Spans(cols)[j - 1].last <= 3
            && (exists c | Spans(cols)[j].first <= c <= Spans(cols)[j].last :: cols[c].run.Some?)
            && (forall c | Spans(cols)[j].first <= c <= Spans(cols)[j].last && cols[c].run.Some? ::
                  VisitedIn(cols, runs, Detours(cols, runs)[k].first, Spans(cols)[j - 1].last, runs[cols[c].run.value].place))
  {
    hide Continues;
    var spans := Spans(cols);
    var next := j + 1;
    var before, after := MergedTo(spans, j, cols, runs), MergedTo(spans, next, cols, runs);
    MergedEnds(spans, j, cols, runs);
    MergedGrow(spans, next, |spans|, cols, runs);
    k := |before| - 1;
    assert after == AddSpan(spans[j], before, cols, runs);
    assert before[k] == Span(before[k].first, spans[j - 1].last);
    ContinuesIff(spans[j], before[k], cols, runs);
  }

  /** A column of [lo, hi] has a visit to `p`. */
  ghost predicate VisitedIn(cols: seq<Col>, runs: seq<Run>, lo: nat, hi: nat, p: Place)
    requires RunsInRange(cols, runs)
  {
    exists d | lo <= d <= hi && d < |cols| && cols[d].run.Some? :: runs[cols[d].run.value].place == p
  }

  lemma ContinuesIff(span: Span, last: Span, cols: seq<Col>, runs: seq<Run>)
    requires RunsInRange(cols, runs) && span.first <= span.last < |cols| && last.last < |cols|
    ensures Continues(span, last, cols, runs) <==>
            && span.first - last.last <= 3
            && (exists c | span.first <= c <= span.last :: cols[c].run.Some?)
            && (forall c | span.first <= c <= span.last && cols[c].run.Some? ::
                  VisitedIn(cols, runs, last.first, last.last, runs[cols[c].run.value].place))
  {
    var places, before := PlacesOf(span, cols, runs), PlacesOf(last, cols, runs);
    forall c | span.first <= c <= span.last && cols[c].run.Some?
      ensures runs[cols[c].run.value].place in places
      ensures VisitedIn(cols, runs, last.first, last.last, runs[cols[c].run.value].place) <==> runs[cols[c].run.value].place in before
    {
    }
  }

  function DivergesOf(cols: seq<Col>, runs: seq<Run>, nSteps: nat): seq<Divergence>
    requires RunsInRange(cols, runs)
  {
    var merged := Detours(cols, runs);
    seq(|merged|, k requires 0 <= k < |merged| => Diverge(merged[k], cols, runs, nSteps))
  }

  /** The divergences under the alignment `al`. */
  function Divergences(al: seq<Alignment.Column>, steps: seq<Step>, frames: seq<Frame>): seq<Divergence>
    requires forall c | c in al :: InRange(c, Canon(steps), Runs(frames))
  {
    if Canon(steps) == [] || frames == [] then [] else
      DivergesOf(Classified(al, Canon(steps), Runs(frames)), Runs(frames), |steps|)
  }

  // ------------------------------------------------- what the columns hold

  ghost predicate HasStep(cols: seq<Col>, lo: nat, hi: nat, x: nat)
    requires hi <= |cols|
  {
    exists c :: lo <= c < hi && cols[c].step == Some(x)
  }

  ghost predicate HasRun(cols: seq<Col>, lo: nat, hi: nat, r: nat)
    requires hi <= |cols|
  {
    exists c :: lo <= c < hi && cols[c].run == Some(r)
  }

  ghost predicate Increasing(s: seq<nat>) {
    forall k, l | 0 <= k < l < |s| :: s[k] < s[l]
  }

  lemma {:induction false} SliceSteps(cols: seq<Col>, lo: nat, hi: nat, nSteps: nat, nRuns: nat)
    requires lo <= hi <= |cols| && Ordered(cols, nSteps, nRuns)
    ensures forall x: nat :: x in StepsIn(cols[lo..hi]) <==> HasStep(cols, lo, hi, x)
    ensures Increasing(StepsIn(cols[lo..hi]))
    decreases hi - lo
  {
    if lo < hi {
      SliceSteps(cols, lo + 1, hi, nSteps, nRuns);
      assert cols[lo..hi][1..] == cols[lo + 1..hi];
      var rest := StepsIn(cols[lo + 1..hi]);
      forall x: nat
        ensures x in StepsIn(cols[lo..hi]) <==> HasStep(cols, lo, hi, x)
      {
        assert x in rest <==> HasStep(cols, lo + 1, hi, x);
        assert HasStep(cols, lo, hi, x) <==> cols[lo].step == Some(x) || HasStep(cols, lo + 1, hi, x);
      }
      assert forall k | 0 <= k < |rest| :: HasStep(cols, lo + 1, hi, rest[k]);
    }
  }

  lemma {:induction false} SliceRuns(cols: seq<Col>, lo: nat, hi: nat, runs: seq<Run>, nSteps: nat)
    requires lo <= hi <= |cols| && Ordered(cols, nSteps, |runs|) && RunsInRange(cols[lo..hi], runs)
    ensures forall r: nat :: r in RunsIn(cols[lo..hi], runs) <==> HasRun(cols, lo, hi, r)
    ensures Increasing(RunsIn(cols[lo..hi], runs))
    decreases hi - lo
  {
    if lo < hi {
      assert cols[lo..hi][1..] == cols[lo + 1..hi];
      SliceRuns(cols, lo + 1, hi, runs, nSteps);
      var rest := RunsIn(cols[lo + 1..hi], runs);
      forall x: nat
        ensures x in RunsIn(cols[lo..hi], runs) <==> HasRun(cols, lo, hi, x)
      {
        assert x in rest <==> HasRun(cols, lo + 1, hi, x);
        assert HasRun(cols, lo, hi, x) <==> cols[lo].run == Some(x) || HasRun(cols, lo + 1, hi, x);
      }
      assert forall k | 0 <= k < |rest| :: HasRun(cols, lo + 1, hi, rest[k]);
    }
  }

  lemma AfterFacts(cols: seq<Col>, pos: nat, nSteps: nat, nRuns: nat)
    requires pos <= |cols| && Ordered(cols, nSteps, nRuns)
    ensures After(cols, pos, nSteps) <= nSteps
    ensures After(cols, pos, nSteps) == nSteps || HasStep(cols, pos, |cols|, After(cols, pos, nSteps))
    ensures forall x: nat :: HasStep(cols, pos, |cols|, x) ==> After(cols, pos, nSteps) <= x
  {
    SliceSteps(cols, pos, |cols|, nSteps, nRuns);
    assert cols[pos..] == cols[pos..|cols|];
    var later := StepsIn(cols[pos..]);
    if later != [] {
      assert later[0] in later;
    }
  }

  // ------------------------------------------------------- one divergence

  ghost predicate RunsIncreasing(runs: seq<Run>) {
    forall r, s | 0 <= r < s < |runs| :: runs[r].first < runs[s].first
  }

  lemma IncreasingBounds(s: seq<nat>, x: nat)
    requires Increasing(s) && x in s
    ensures s[0] in s && s[|s| - 1] in s && s[0] <= x <= s[|s| - 1]
  {
  }

  /** A step of an earlier column is before the first later one. */
  lemma StepBeforeAfter(cols: seq<Col>, lo: nat, end: nat, x: nat, nSteps: nat, nRuns: nat)
    requires lo <= end <= |cols| && Ordered(cols, nSteps, nRuns) && HasStep(cols, lo, end, x)
    ensures x < After(cols, end, nSteps)
  {
    var c :| lo <= c < end && cols[c].step == Some(x);
    AfterFacts(cols, end, nSteps, nRuns);
    var after := After(cols, end, nSteps);
    if after < nSteps {
      var e :| end <= e < |cols| && cols[e].step == Some(after);
    }
  }

  lemma HasStepWider(cols: seq<Col>, lo: nat, hi: nat, lo': nat, hi': nat, x: nat)
    requires lo' <= lo && hi <= hi' <= |cols| && HasStep(cols, lo, hi, x)
    ensures HasStep(cols, lo', hi', x)
  {
    var c :| lo <= c < hi && cols[c].step == Some(x);
    assert cols[c].step == Some(x);
  }

  lemma DivergeSteps(span: Span, end: nat, cols: seq<Col>, nSteps: nat, nRuns: nat)
    requires span.first <= span.last < |cols| && Ordered(cols, nSteps, nRuns)
    requires end == span.last + 1
    ensures StepIndex(span, cols, nSteps) <= RejoinIndex(span, cols, nSteps) <= After(cols, end, nSteps) <= nSteps
    ensures forall x: nat :: HasStep(cols, span.first, end, x) ==> StepIndex(span, cols, nSteps) <= x < RejoinIndex(span, cols, nSteps)
    ensures StepIndex(span, cols, nSteps) == nSteps || HasStep(cols, span.first, |cols|, StepIndex(span, cols, nSteps))
  {
    hide StepsIn, Ordered, After, HasStep;
    SliceSteps(cols, span.first, end, nSteps, nRuns);
    AfterFacts(cols, end, nSteps, nRuns);
    var replaced := StepsIn(cols[span.first..end]);
    assert replaced == Replaced(span, cols);
    if replaced != [] {
      IncreasingBounds(replaced, replaced[0]);
      StepBeforeAfter(cols, span.first, end, replaced[|replaced| - 1], nSteps, nRuns);
      HasStepWider(cols, span.first, end, span.first, |cols|, replaced[0]);
      forall x: nat | HasStep(cols, span.first, end, x)
        ensures StepIndex(span, cols, nSteps) <= x < RejoinIndex(span, cols, nSteps)
      {
        IncreasingBounds(replaced, x);
      }
    } else if StepIndex(span, cols, nSteps) < nSteps {
      HasStepWider(cols, end, |cols|, span.first, |cols|, StepIndex(span, cols, nSteps));
    }
  }

  /** A divergence's alternative is the starts of its visits, in order. */
  lemma DivergeRuns(span: Span, end: nat, cols: seq<Col>, runs: seq<Run>, nSteps: nat)
    requires span.first <= span.last < |cols| && RunsInRange(cols, runs) && Ordered(cols, nSteps, |runs|)
    requires RunsIncreasing(runs) && end == span.last + 1
    ensures Increasing(Alternative(span, cols, runs))
    ensures forall r: nat | r < |runs| && HasRun(cols, span.first, end, r) :: runs[r].first in Alternative(span, cols, runs)
    ensures forall f | f in Alternative(span, cols, runs) :: StartsIn(cols, span.first, end, runs, f)
  {
    var alternative := Alternative(span, cols, runs);
    var inside := RunsIn(cols[span.first..end], runs);
    SliceRuns(cols, span.first, end, runs, nSteps);
    forall r: nat | r < |runs| && HasRun(cols, span.first, end, r)
      ensures runs[r].first in alternative
    {
      assert r in inside;
      var k :| 0 <= k < |inside| && inside[k] == r;
      assert alternative[k] == runs[r].first;
    }
    forall f | f in alternative
      ensures StartsIn(cols, span.first, end, runs, f)
    {
      var k :| 0 <= k < |inside| && alternative[k] == f;
      assert inside[k] in inside && runs[inside[k]].first == f;
    }
  }

  lemma {:induction false} NoVisits(cols: seq<Col>, lo: nat, hi: nat, runs: seq<Run>)
    requires lo <= hi <= |cols| && RunsInRange(cols[lo..hi], runs) && RunsIn(cols[lo..hi], runs) == []
    ensures forall c | lo <= c < hi :: cols[c].run.None?
    decreases hi - lo
  {
    if lo < hi {
      assert cols[lo..hi][1..] == cols[lo + 1..hi];
      NoVisits(cols, lo + 1, hi, runs);
    }
  }

  /** A divergence without an alternative has no visit: it begins on a step. */
  lemma SkipBeginsOnStep(span: Span, end: nat, cols: seq<Col>, runs: seq<Run>, nSteps: nat)
    requires span.first <= span.last < |cols| && RunsInRange(cols, runs) && Ordered(cols, nSteps, |runs|)
    requires end == span.last + 1 && cols[span.first].verdict == Diverges
    requires Alternative(span, cols, runs) == []
    ensures StepIndex(span, cols, nSteps) < RejoinIndex(span, cols, nSteps)
  {
    NoVisits(cols, span.first, end, runs);
    DivergeSteps(span, end, cols, nSteps, |runs|);
    assert HasStep(cols, span.first, end, cols[span.first].step.value);
  }

  /** The frame a divergence is decided on. */
  lemma DecidedOn(span: Span, cols: seq<Col>, runs: seq<Run>, frames: seq<Frame>)
    requires span.first <= span.last < |cols| && RunsInRange(cols, runs) && RunsOf(runs, frames, |frames|) && frames != []
    ensures ConditionAt(span, cols, runs) < |frames|
    ensures
      var alternative := Alternative(span, cols, runs);
      if alternative == [] then VisitStart(frames, ConditionAt(span, cols, runs))
      else ConditionAt(span, cols, runs) == if alternative[0] > 0 then alternative[0] - 1 else 0
  {
    assert VisitStart(frames, 0);
  }

  /** Frame `f` starts a visit of the columns [lo, hi). */
  ghost predicate StartsIn(cols: seq<Col>, lo: nat, hi: nat, runs: seq<Run>, f: nat)
    requires hi <= |cols|
  {
    exists r: nat :: r < |runs| && runs[r].first == f && HasRun(cols, lo, hi, r)
  }

  // ------------------------------------------------------------- theorems

  /** `al` is a monotone global alignment of the canonical steps and the visits. */
  ghost predicate Aligned(al: seq<Alignment.Column>, steps: seq<Step>, frames: seq<Frame>) {
    Alignment.Aligns(al, 0, 0, |Canon(steps)|, |Runs(frames)|)
  }

  lemma AlignedInRange(al: seq<Alignment.Column>, steps: seq<Step>, frames: seq<Frame>)
    requires Aligned(al, steps, frames)
    ensures Monotone(al, 0, 0, |Canon(steps)|, |Runs(frames)|)
    ensures forall c | c in al :: InRange(c, Canon(steps), Runs(frames))
  {
    AlignsIsMonotone(al, 0, 0, |Canon(steps)|, |Runs(frames)|);
  }

  ghost function Mined(al: seq<Alignment.Column>, steps: seq<Step>, frames: seq<Frame>): seq<Divergence>
    requires Aligned(al, steps, frames)
  {
    AlignedInRange(al, steps, frames);
    Divergences(al, steps, frames)
  }

  /** No frame shows `p`. */
  ghost predicate NeverVisited(frames: seq<Frame>, p: Place) {
    forall f | 0 <= f < |frames| :: frames[f].place != p
  }

  /** Column `c` pairs a step with a visit of its own site. */
  ghost predicate DoneAt(al: seq<Alignment.Column>, steps: seq<Step>, frames: seq<Frame>, c: nat) {
    && c < |al| && al[c].a.Some? && al[c].b.Some?
    && al[c].a.value < |Canon(steps)| && al[c].b.value < |Runs(frames)|
    && OneSite(Runs(frames)[al[c].b.value].place, Canon(steps)[al[c].a.value].place)
  }

  lemma DoneIff(al: seq<Alignment.Column>, steps: seq<Step>, frames: seq<Frame>, c: nat)
    requires Aligned(al, steps, frames) && c < |al|
    ensures InRange(al[c], Canon(steps), Runs(frames))
    ensures Performs(al[c], Canon(steps), Runs(frames)) <==> DoneAt(al, steps, frames, c)
  {
    hide Site, OneSite, Canon, Runs;
    AlignedInRange(al, steps, frames);
    assert al[c] in al;
    if al[c].a.Some? && al[c].b.Some? {
      SiteIff(Runs(frames)[al[c].b.value].place, Canon(steps)[al[c].a.value].place);
    }
  }

  /** Step `i` is performed: aligned with a page of its own site. */
  ghost predicate StepPerformed(al: seq<Alignment.Column>, steps: seq<Step>, frames: seq<Frame>, i: nat) {
    exists c: nat :: DoneAt(al, steps, frames, c) && Canon(steps)[al[c].a.value].index == i
  }

  /** Step `i` has a place, the instance never goes there, and does not perform the step elsewhere on its site. */
  ghost predicate LeftOut(al: seq<Alignment.Column>, steps: seq<Step>, frames: seq<Frame>, i: nat)
    requires Aligned(al, steps, frames)
  {
    i < |steps| && steps[i].place.Some? && NeverVisited(frames, steps[i].place.value) && !StepPerformed(al, steps, frames, i)
  }

  /** A step was performed on the place `p`. */
  ghost predicate PerformedOn(al: seq<Alignment.Column>, steps: seq<Step>, frames: seq<Frame>, p: Place)
    requires Aligned(al, steps, frames)
  {
    exists c: nat :: DoneAt(al, steps, frames, c) && Runs(frames)[al[c].b.value].place == p
  }

  /** A visit beginning at frame `f`, to a place that is neither a step's nor one a step was performed on. */
  ghost predicate NewVisit(al: seq<Alignment.Column>, steps: seq<Step>, frames: seq<Frame>, f: nat)
    requires Aligned(al, steps, frames)
  {
    VisitStart(frames, f) && (forall s | s in steps :: s.place != Some(frames[f].place))
    && !PerformedOn(al, steps, frames, frames[f].place)
  }

  ghost predicate Comparable(steps: seq<Step>, frames: seq<Frame>) {
    Canon(steps) != [] && frames != []
  }

  ghost function ColsOf(al: seq<Alignment.Column>, steps: seq<Step>, frames: seq<Frame>): (cols: seq<Col>)
    requires Aligned(al, steps, frames)
    ensures RunsInRange(cols, Runs(frames)) && |cols| == |al|
  {
    AlignedInRange(al, steps, frames);
    Classified(al, Canon(steps), Runs(frames))
  }

  lemma ColumnReads(al: seq<Alignment.Column>, steps: seq<Step>, frames: seq<Frame>, c: nat)
    requires Aligned(al, steps, frames) && c < |al|
    ensures InRange(al[c], Canon(steps), Runs(frames))
    ensures ColsOf(al, steps, frames)[c].step == if al[c].a.Some? then Some(Canon(steps)[al[c].a.value].index) else None
    ensures ColsOf(al, steps, frames)[c].run.Some? ==> ColsOf(al, steps, frames)[c].run == al[c].b
    ensures ColsOf(al, steps, frames)[c].step.Some? || ColsOf(al, steps, frames)[c].run.Some?
  {
    AlignedInRange(al, steps, frames);
    assert al[c] in al;
  }

  lemma ColumnsInOrder(al: seq<Alignment.Column>, steps: seq<Step>, frames: seq<Frame>)
    requires Aligned(al, steps, frames)
    ensures Ordered(ColsOf(al, steps, frames), |steps|, |Runs(frames)|)
    ensures RunsIncreasing(Runs(frames)) && RunsOf(Runs(frames), frames, |frames|)
  {
    AlignedInRange(al, steps, frames);
    CanonFacts(steps, |steps|);
    RunsFacts(frames, |frames|);
    var cols, canon := ColsOf(al, steps, frames), Canon(steps);
    forall c | 0 <= c < |cols|
      ensures cols[c].step.Some? ==> cols[c].step.value < |steps|
      ensures cols[c].run.Some? ==> cols[c].run.value < |Runs(frames)|
      ensures cols[c].step.Some? || cols[c].run.Some?
    {
      ColumnReads(al, steps, frames, c);
    }
    forall c, d | 0 <= c < d < |cols|
      ensures cols[c].step.Some? && cols[d].step.Some? ==> cols[c].step.value < cols[d].step.value
      ensures cols[c].run.Some? && cols[d].run.Some? ==> cols[c].run.value < cols[d].run.value
    {
      ColumnPair(al, steps, frames, c, d);
    }
  }

  lemma ColumnPair(al: seq<Alignment.Column>, steps: seq<Step>, frames: seq<Frame>, c: nat, d: nat)
    requires Aligned(al, steps, frames) && c < d < |al|
    ensures
      var x, y := ColsOf(al, steps, frames)[c], ColsOf(al, steps, frames)[d];
      && (x.step.Some? && y.step.Some? ==> x.step.value < y.step.value)
      && (x.run.Some? && y.run.Some? ==> x.run.value < y.run.value)
  {
    AlignedInRange(al, steps, frames);
    CanonFacts(steps, |steps|);
    ColumnReads(al, steps, frames, c);
    ColumnReads(al, steps, frames, d);
  }

  /** The visit or step that makes a column diverge. */
  ghost predicate Cause(al: seq<Alignment.Column>, steps: seq<Step>, frames: seq<Frame>, c: nat)
    requires Aligned(al, steps, frames) && c < |al|
  {
    var col := ColsOf(al, steps, frames)[c];
    || (col.run.Some? && NewVisit(al, steps, frames, Runs(frames)[col.run.value].first))
    || (col.step.Some? && LeftOut(al, steps, frames, col.step.value))
  }

  lemma NewPlace(al: seq<Alignment.Column>, steps: seq<Step>, frames: seq<Frame>, r: nat)
    requires Aligned(al, steps, frames) && r < |Runs(frames)|
    ensures (forall c | c in al :: InRange(c, Canon(steps), Runs(frames)))
    ensures NewVisit(al, steps, frames, Runs(frames)[r].first) <==>
            Runs(frames)[r].place !in Known(al, Canon(steps), Runs(frames))
  {
    AlignedInRange(al, steps, frames);
    CanonFacts(steps, |steps|);
    RunsFacts(frames, |frames|);
    var canon, p := Canon(steps), Runs(frames)[r].place;
    assert (exists s :: s in steps && s.place == Some(p)) <==> (exists s :: s in canon && s.place == p) by {
      if exists s :: s in canon && s.place == p {
        var s :| s in canon && s.place == p;
        assert steps[s.index] in steps && steps[s.index].place == Some(p);
      }
      if exists s :: s in steps && s.place == Some(p) {
        var i :| 0 <= i < |steps| && steps[i].place == Some(p);
        assert CanonStep(i, p) in canon;
      }
    }
    PerformedOnIff(al, steps, frames, p);
  }

  lemma PerformedOnIff(al: seq<Alignment.Column>, steps: seq<Step>, frames: seq<Frame>, p: Place)
    requires Aligned(al, steps, frames)
    ensures (forall c | c in al :: InRange(c, Canon(steps), Runs(frames)))
    ensures PerformedOn(al, steps, frames, p) <==> p in Performed(al, Canon(steps), Runs(frames))
  {
    hide OneSite, Site;
    AlignedInRange(al, steps, frames);
    forall c: nat | c < |al|
      ensures Performs(al[c], Canon(steps), Runs(frames)) <==> DoneAt(al, steps, frames, c)
    {
      DoneIff(al, steps, frames, c);
    }
    if PerformedOn(al, steps, frames, p) {
      var c: nat :| DoneAt(al, steps, frames, c) && Runs(frames)[al[c].b.value].place == p;
      assert al[c] in al;
    }
    if p in Performed(al, Canon(steps), Runs(frames)) {
      var x :| x in al && Performs(x, Canon(steps), Runs(frames)) && Runs(frames)[x.b.value].place == p;
      var c :| 0 <= c < |al| && al[c] == x;
      assert DoneAt(al, steps, frames, c);
    }
  }

  lemma UnvisitedPlace(frames: seq<Frame>, p: Place)
    ensures NeverVisited(frames, p) <==> p !in Visited(Runs(frames))
  {
    RunsFacts(frames, |frames|);
    if !NeverVisited(frames, p) {
      var f :| 0 <= f < |frames| && frames[f].place == p;
      VisitedFrames(frames, |frames|, f);
    }
    if p in Visited(Runs(frames)) {
      var r :| r in Runs(frames) && r.place == p;
      assert frames[r.first].place == p;
    }
  }

  lemma StepOfColumn(al: seq<Alignment.Column>, steps: seq<Step>, frames: seq<Frame>, c: nat)
    requires Aligned(al, steps, frames) && c < |al| && al[c].a.Some?
    ensures al[c] in al && InRange(al[c], Canon(steps), Runs(frames))
    ensures StepPerformed(al, steps, frames, Canon(steps)[al[c].a.value].index) <==> Performs(al[c], Canon(steps), Runs(frames))
    ensures LeftOut(al, steps, frames, Canon(steps)[al[c].a.value].index) <==>
            Canon(steps)[al[c].a.value].place !in Visited(Runs(frames)) && !Performs(al[c], Canon(steps), Runs(frames))
  {
    AlignedInRange(al, steps, frames);
    CanonFacts(steps, |steps|);
    var canon := Canon(steps);
    var i := canon[al[c].a.value].index;
    UnvisitedPlace(frames, canon[al[c].a.value].place);
    DoneIff(al, steps, frames, c);
    if StepPerformed(al, steps, frames, i) {
      var d: nat :| DoneAt(al, steps, frames, d) && canon[al[d].a.value].index == i;
      assert al[d].a == al[c].a;
      assert d == c;
    }
  }

  lemma DivergingHasCause(al: seq<Alignment.Column>, steps: seq<Step>, frames: seq<Frame>, c: nat)
    requires Aligned(al, steps, frames) && c < |al|
    ensures ColsOf(al, steps, frames)[c].verdict == Diverges <==> Cause(al, steps, frames, c)
  {
    AlignedInRange(al, steps, frames);
    assert al[c] in al;
    if al[c].a.Some? { StepOfColumn(al, steps, frames, c); }
    if al[c].b.Some? {
      NewPlace(al, steps, frames, al[c].b.value);
      PerformedPlace(al, Canon(steps), Runs(frames), al[c]);
    }
  }

  lemma DetoursCover(cols: seq<Col>, runs: seq<Run>, c: nat)
    requires RunsInRange(cols, runs) && c < |cols| && cols[c].verdict == Diverges
    ensures Covers(Detours(cols, runs), c)
  {
    var spans := Spans(cols);
    assert Covers(spans, c);
    var k :| 0 <= k < |spans| && spans[k].first <= c <= spans[k].last;
    MergedFacts(spans, |spans|, cols, runs);
    assert Within(spans[k], Detours(cols, runs));
  }

  // -- Theorem 1: every divergence is well formed and they come in order.

  ghost predicate WellFormed(d: Divergence, steps: seq<Step>, frames: seq<Frame>) {
    && d.stepIndex <= d.rejoinIndex <= |steps|
    && (d.alternative == [] ==> d.stepIndex < d.rejoinIndex)
    && Increasing(d.alternative)
    && (forall f | f in d.alternative :: VisitStart(frames, f))
    && d.conditionAt < |frames|
    && (d.alternative != [] ==> d.conditionAt == if d.alternative[0] > 0 then d.alternative[0] - 1 else 0)
    && (d.alternative == [] ==> VisitStart(frames, d.conditionAt))
  }

  lemma MinedIsWellFormed(al: seq<Alignment.Column>, steps: seq<Step>, frames: seq<Frame>, k: nat)
    requires Aligned(al, steps, frames) && k < |Mined(al, steps, frames)|
    ensures WellFormed(Mined(al, steps, frames)[k], steps, frames)
  {
    ColumnsInOrder(al, steps, frames);
    AlignedInRange(al, steps, frames);
    var cols, runs := ColsOf(al, steps, frames), Runs(frames);
    var span := Detours(cols, runs)[k];
    var end := span.last + 1;
    DivergeSteps(span, end, cols, |steps|, |runs|);
    DivergeRuns(span, end, cols, runs, |steps|);
    DecidedOn(span, cols, runs, frames);
    forall f | f in Alternative(span, cols, runs)
      ensures VisitStart(frames, f)
    {
      assert StartsIn(cols, span.first, end, runs, f);
    }
    if Alternative(span, cols, runs) == [] {
      SkipBeginsOnStep(span, end, cols, runs, |steps|);
    }
  }

  lemma StepsInOrder(p: Span, q: Span, cols: seq<Col>, nSteps: nat, nRuns: nat)
    requires p.first <= p.last < q.first <= q.last < |cols| && Ordered(cols, nSteps, nRuns)
    ensures RejoinIndex(p, cols, nSteps) <= StepIndex(q, cols, nSteps)
  {
    var end, step := p.last + 1, StepIndex(q, cols, nSteps);
    DivergeSteps(p, end, cols, nSteps, nRuns);
    DivergeSteps(q, q.last + 1, cols, nSteps, nRuns);
    AfterFacts(cols, end, nSteps, nRuns);
    if step < nSteps {
      HasStepWider(cols, q.first, |cols|, end, |cols|, step);
    }
  }

  lemma VisitsInOrder(p: Span, q: Span, cols: seq<Col>, runs: seq<Run>, nSteps: nat, f: nat, g: nat)
    requires p.first <= p.last < q.first <= q.last < |cols|
    requires RunsInRange(cols, runs) && Ordered(cols, nSteps, |runs|) && RunsIncreasing(runs)
    requires f in Alternative(p, cols, runs) && g in Alternative(q, cols, runs)
    ensures f < g
  {
    var pEnd, qEnd := p.last + 1, q.last + 1;
    DivergeRuns(p, pEnd, cols, runs, nSteps);
    DivergeRuns(q, qEnd, cols, runs, nSteps);
    assert StartsIn(cols, p.first, pEnd, runs, f);
    var r: nat :| r < |runs| && runs[r].first == f && HasRun(cols, p.first, pEnd, r);
    assert StartsIn(cols, q.first, qEnd, runs, g);
    var s: nat :| s < |runs| && runs[s].first == g && HasRun(cols, q.first, qEnd, s);
    var c :| p.first <= c < pEnd && cols[c].run == Some(r);
    var d :| q.first <= d < qEnd && cols[d].run == Some(s);
  }

  lemma InOrder(cols: seq<Col>, runs: seq<Run>, nSteps: nat, k: nat, l: nat)
    requires RunsInRange(cols, runs) && Ordered(cols, nSteps, |runs|) && RunsIncreasing(runs)
    requires k < l < |DivergesOf(cols, runs, nSteps)|
    ensures DivergesOf(cols, runs, nSteps)[k].rejoinIndex <= DivergesOf(cols, runs, nSteps)[l].stepIndex
    ensures forall f, g | f in DivergesOf(cols, runs, nSteps)[k].alternative && g in DivergesOf(cols, runs, nSteps)[l].alternative :: f < g
  {
    var p, q := Detours(cols, runs)[k], Detours(cols, runs)[l];
    StepsInOrder(p, q, cols, nSteps, |runs|);
    forall f, g | f in Alternative(p, cols, runs) && g in Alternative(q, cols, runs)
      ensures f < g
    {
      VisitsInOrder(p, q, cols, runs, nSteps, f, g);
    }
  }

  lemma MinedInOrder(al: seq<Alignment.Column>, steps: seq<Step>, frames: seq<Frame>, k: nat, l: nat)
    requires Aligned(al, steps, frames) && k < l < |Mined(al, steps, frames)|
    ensures Mined(al, steps, frames)[k].rejoinIndex <= Mined(al, steps, frames)[l].stepIndex
    ensures forall f, g | f in Mined(al, steps, frames)[k].alternative && g in Mined(al, steps, frames)[l].alternative :: f < g
  {
    ColumnsInOrder(al, steps, frames);
    InOrder(ColsOf(al, steps, frames), Runs(frames), |steps|, k, l);
  }

  /** The visit of a diverging column is in exactly one alternative. */
  lemma VisitMinedOnce(cols: seq<Col>, runs: seq<Run>, nSteps: nat, c: nat, r: nat) returns (k: nat)
    requires RunsInRange(cols, runs) && Ordered(cols, nSteps, |runs|) && RunsIncreasing(runs)
    requires c < |cols| && cols[c].verdict == Diverges && cols[c].run == Some(r)
    ensures k < |DivergesOf(cols, runs, nSteps)| && runs[r].first in DivergesOf(cols, runs, nSteps)[k].alternative
    ensures forall l | 0 <= l < |DivergesOf(cols, runs, nSteps)| &&
              runs[r].first in DivergesOf(cols, runs, nSteps)[l].alternative :: l == k
  {
    hide Alternative, StepIndex, RejoinIndex, ConditionAt, MergedTo, Spans, Continues;
    var ds, spans := DivergesOf(cols, runs, nSteps), Detours(cols, runs);
    DetoursCover(cols, runs, c);
    k :| 0 <= k < |spans| && spans[k].first <= c <= spans[k].last;
    var end := spans[k].last + 1;
    assert HasRun(cols, spans[k].first, end, r);
    DivergeRuns(spans[k], end, cols, runs, nSteps);
    assert runs[r].first in ds[k].alternative;
    forall l | 0 <= l < |ds| && l != k
      ensures runs[r].first !in ds[l].alternative
    {
      if l < k { InOrder(cols, runs, nSteps, l, k); } else { InOrder(cols, runs, nSteps, k, l); }
    }
  }

  /** The step of a diverging column is replaced by exactly one divergence. */
  lemma StepMinedOnce(cols: seq<Col>, runs: seq<Run>, nSteps: nat, c: nat, i: nat) returns (k: nat)
    requires RunsInRange(cols, runs) && Ordered(cols, nSteps, |runs|) && RunsIncreasing(runs)
    requires c < |cols| && cols[c].verdict == Diverges && cols[c].step == Some(i)
    ensures k < |DivergesOf(cols, runs, nSteps)|
    ensures DivergesOf(cols, runs, nSteps)[k].stepIndex <= i < DivergesOf(cols, runs, nSteps)[k].rejoinIndex
    ensures forall l | 0 <= l < |DivergesOf(cols, runs, nSteps)| &&
              DivergesOf(cols, runs, nSteps)[l].stepIndex <= i < DivergesOf(cols, runs, nSteps)[l].rejoinIndex :: l == k
  {
    hide Alternative, StepIndex, RejoinIndex, ConditionAt, MergedTo, Spans, Continues;
    var ds, spans := DivergesOf(cols, runs, nSteps), Detours(cols, runs);
    DetoursCover(cols, runs, c);
    k :| 0 <= k < |spans| && spans[k].first <= c <= spans[k].last;
    var end := spans[k].last + 1;
    assert HasStep(cols, spans[k].first, end, i);
    DivergeSteps(spans[k], end, cols, nSteps, |runs|);
    assert ds[k].stepIndex <= i < ds[k].rejoinIndex;
    forall l | 0 <= l < |ds| && l != k
      ensures !(ds[l].stepIndex <= i < ds[l].rejoinIndex)
    {
      if l < k { InOrder(cols, runs, nSteps, l, k); } else { InOrder(cols, runs, nSteps, k, l); }
    }
  }

  // -- Theorem 2: what is mined is exactly what left the Skill.

  lemma NewVisitColumn(al: seq<Alignment.Column>, steps: seq<Step>, frames: seq<Frame>, f: nat) returns (c: nat, r: nat)
    requires Aligned(al, steps, frames) && NewVisit(al, steps, frames, f)
    ensures r < |Runs(frames)| && Runs(frames)[r].first == f && c < |al|
    ensures ColsOf(al, steps, frames)[c].run == Some(r) && ColsOf(al, steps, frames)[c].verdict == Diverges
  {
    AlignedInRange(al, steps, frames);
    RunsFacts(frames, |frames|);
    var runs := Runs(frames);
    assert Run(frames[f].place, f) in runs;
    r :| r < |runs| && runs[r] == Run(frames[f].place, f);
    assert HasSecond(al, r);
    c :| 0 <= c < |al| && al[c].b == Some(r);
    assert al[c] in al;
    NewPlace(al, steps, frames, r);
    PerformedPlace(al, Canon(steps), runs, al[c]);
  }

  lemma PerformedPlace(al: seq<Alignment.Column>, canon: seq<CanonStep>, runs: seq<Run>, c: Alignment.Column)
    requires (forall x | x in al :: InRange(x, canon, runs)) && c in al
    ensures Performs(c, canon, runs) ==> runs[c.b.value].place in Performed(al, canon, runs)
  {
  }

  lemma LeftOutColumn(al: seq<Alignment.Column>, steps: seq<Step>, frames: seq<Frame>, i: nat) returns (c: nat)
    requires Aligned(al, steps, frames) && LeftOut(al, steps, frames, i)
    ensures c < |al|
    ensures ColsOf(al, steps, frames)[c].step == Some(i) && ColsOf(al, steps, frames)[c].verdict == Diverges
  {
    AlignedInRange(al, steps, frames);
    CanonFacts(steps, |steps|);
    var canon := Canon(steps);
    assert CanonStep(i, steps[i].place.value) in canon;
    var a: nat :| a < |canon| && canon[a] == CanonStep(i, steps[i].place.value);
    assert HasFirst(al, a);
    c :| 0 <= c < |al| && al[c].a == Some(a);
    ColumnReads(al, steps, frames, c);
    DivergingHasCause(al, steps, frames, c);
  }

  /** A visit to a new place is in the alternative of exactly one divergence. */
  lemma NewVisitIsMinedOnce(al: seq<Alignment.Column>, steps: seq<Step>, frames: seq<Frame>, f: nat) returns (k: nat)
    requires Aligned(al, steps, frames) && Comparable(steps, frames) && NewVisit(al, steps, frames, f)
    ensures k < |Mined(al, steps, frames)| && f in Mined(al, steps, frames)[k].alternative
    ensures forall l | 0 <= l < |Mined(al, steps, frames)| && f in Mined(al, steps, frames)[l].alternative :: l == k
  {
    var c, r := NewVisitColumn(al, steps, frames, f);
    ColumnsInOrder(al, steps, frames);
    k := VisitMinedOnce(ColsOf(al, steps, frames), Runs(frames), |steps|, c, r);
  }

  /** A left-out step is among the replaced steps of exactly one divergence. */
  lemma LeftOutIsMinedOnce(al: seq<Alignment.Column>, steps: seq<Step>, frames: seq<Frame>, i: nat) returns (k: nat)
    requires Aligned(al, steps, frames) && Comparable(steps, frames) && LeftOut(al, steps, frames, i)
    ensures k < |Mined(al, steps, frames)|
    ensures Mined(al, steps, frames)[k].stepIndex <= i < Mined(al, steps, frames)[k].rejoinIndex
    ensures forall l | 0 <= l < |Mined(al, steps, frames)| &&
              Mined(al, steps, frames)[l].stepIndex <= i < Mined(al, steps, frames)[l].rejoinIndex :: l == k
  {
    var c := LeftOutColumn(al, steps, frames, i);
    ColumnsInOrder(al, steps, frames);
    k := StepMinedOnce(ColsOf(al, steps, frames), Runs(frames), |steps|, c, i);
  }

  /** A visit of a diverging column is in the alternative of its divergence. */
  lemma VisitIsMined(cols: seq<Col>, runs: seq<Run>, nSteps: nat, k: nat, r: nat)
    requires RunsInRange(cols, runs) && Ordered(cols, nSteps, |runs|) && RunsIncreasing(runs)
    requires k < |Detours(cols, runs)| && cols[Detours(cols, runs)[k].first].run == Some(r)
    ensures runs[r].first in DivergesOf(cols, runs, nSteps)[k].alternative
  {
    hide Alternative, StepIndex, RejoinIndex, ConditionAt, MergedTo, Spans;
    var span := Detours(cols, runs)[k];
    var end := span.last + 1;
    DivergeRuns(span, end, cols, runs, nSteps);
    assert HasRun(cols, span.first, end, r);
  }

  /** A step of a diverging column is among the replaced steps of its divergence. */
  lemma StepIsMined(cols: seq<Col>, runs: seq<Run>, nSteps: nat, k: nat, i: nat)
    requires RunsInRange(cols, runs) && Ordered(cols, nSteps, |runs|)
    requires k < |Detours(cols, runs)| && cols[Detours(cols, runs)[k].first].step == Some(i)
    ensures DivergesOf(cols, runs, nSteps)[k].stepIndex <= i < DivergesOf(cols, runs, nSteps)[k].rejoinIndex
  {
    hide Alternative, StepIndex, RejoinIndex, ConditionAt, MergedTo, Spans;
    var span := Detours(cols, runs)[k];
    var end := span.last + 1;
    DivergeSteps(span, end, cols, nSteps, |runs|);
    assert HasStep(cols, span.first, end, i);
  }

  /** Every divergence holds a visit to a new place or a left-out step. */
  lemma MinedHasCause(al: seq<Alignment.Column>, steps: seq<Step>, frames: seq<Frame>, k: nat)
    requires Aligned(al, steps, frames) && k < |Mined(al, steps, frames)|
    ensures
      var d := Mined(al, steps, frames)[k];
      || (exists f :: f in d.alternative && NewVisit(al, steps, frames, f))
      || (exists i: nat :: d.stepIndex <= i < d.rejoinIndex && LeftOut(al, steps, frames, i))
  {
    hide Aligned, NewVisit, LeftOut, Ordered, RunsIncreasing, RunsOf, Classified, Alternative, StepIndex, RejoinIndex, ConditionAt, MergedTo, Spans;
    ColumnsInOrder(al, steps, frames);
    AlignedInRange(al, steps, frames);
    var cols, runs := ColsOf(al, steps, frames), Runs(frames);
    var c := Detours(cols, runs)[k].first;
    DivergingHasCause(al, steps, frames, c);
    if cols[c].run.Some? && NewVisit(al, steps, frames, runs[cols[c].run.value].first) {
      VisitIsMined(cols, runs, |steps|, k, cols[c].run.value);
    } else {
      StepIsMined(cols, runs, |steps|, k, cols[c].step.value);
    }
  }

  /** The instance diverges if and only if it visits a new place or leaves a step out. */
  lemma DivergesIff(al: seq<Alignment.Column>, steps: seq<Step>, frames: seq<Frame>)
    requires Aligned(al, steps, frames) && Comparable(steps, frames)
    ensures Mined(al, steps, frames) != [] <==>
            (exists f: nat :: NewVisit(al, steps, frames, f)) || (exists i: nat :: LeftOut(al, steps, frames, i))
  {
    if Mined(al, steps, frames) != [] {
      MinedHasCause(al, steps, frames, 0);
    } else if f: nat :| NewVisit(al, steps, frames, f) {
      var _ := NewVisitIsMinedOnce(al, steps, frames, f);
    } else if i: nat :| LeftOut(al, steps, frames, i) {
      var _ := LeftOutIsMinedOnce(al, steps, frames, i);
    }
  }

  // -- Theorem 3: the screen a skip is decided on.

  /** The last visit in the columns before `c`. */
  ghost function VisitBefore(al: seq<Alignment.Column>, c: nat): Option<nat>
    requires c <= |al|
  {
    if c == 0 then None else if al[c - 1].b.Some? then al[c - 1].b else VisitBefore(al, c - 1)
  }

  /** The first visit in the columns from `c` on. */
  ghost function VisitFrom(al: seq<Alignment.Column>, c: nat): Option<nat>
    requires c <= |al|
    decreases |al| - c
  {
    if c == |al| then None else if al[c].b.Some? then al[c].b else VisitFrom(al, c + 1)
  }

  /** The frame just before column `c`: the one before the next visit begins, the last
      one when no visit is left; None when no frame comes before. */
  ghost function FrameBefore(al: seq<Alignment.Column>, frames: seq<Frame>, c: nat): Option<nat>
    requires c <= |al|
  {
    match VisitFrom(al, c)
    case None => if frames == [] then None else Some(|frames| - 1)
    case Some(r) => if r < |Runs(frames)| && Runs(frames)[r].first > 0 then Some(Runs(frames)[r].first - 1) else None
  }

  /** No column of [lo, hi) has a visit. */
  ghost predicate NoVisitIn(al: seq<Alignment.Column>, lo: nat, hi: nat) {
    forall x | lo <= x < hi && x < |al| :: al[x].b.None?
  }

  lemma {:induction false} VisitBeforeAt(al: seq<Alignment.Column>, c: nat) returns (x: nat)
    requires c <= |al|
    ensures VisitBefore(al, c).None? ==> NoVisitIn(al, 0, c)
    ensures VisitBefore(al, c).Some? ==> x < c && al[x].b == VisitBefore(al, c) && NoVisitIn(al, x + 1, c)
  {
    x := 0;
    if c > 0 {
      if al[c - 1].b.Some? { x := c - 1; } else { x := VisitBeforeAt(al, c - 1); }
    }
  }

  lemma {:induction false} VisitFromAt(al: seq<Alignment.Column>, c: nat) returns (x: nat)
    requires c <= |al|
    ensures VisitFrom(al, c).None? ==> NoVisitIn(al, c, |al|)
    ensures VisitFrom(al, c).Some? ==> c <= x < |al| && al[x].b == VisitFrom(al, c) && NoVisitIn(al, c, x)
    decreases |al| - c
  {
    x := c;
    if c < |al| && al[c].b.None? { x := VisitFromAt(al, c + 1); }
  }

  /** Visits come one after another: the next one after `r` is `r + 1`. */
  lemma NextVisit(al: seq<Alignment.Column>, m: nat, n: nat, c: nat)
    requires Monotone(al, 0, 0, m, n) && c <= |al|
    ensures
      match VisitBefore(al, c)
      case None => VisitFrom(al, c) == if n == 0 then None else Some(0)
      case Some(r) => r < n && VisitFrom(al, c) == if r + 1 < n then Some(r + 1) else None
  {
    var x := VisitBeforeAt(al, c);
    var y := VisitFromAt(al, c);
    var next := match VisitBefore(al, c) case None => 0 case Some(r) => r + 1;
    if next < n {
      assert HasSecond(al, next);
      var z :| 0 <= z < |al| && al[z].b == Some(next);
    }
  }

  lemma {:induction false} RunsInSnoc(cols: seq<Col>, col: Col, runs: seq<Run>)
    requires RunsInRange(cols + [col], runs) && RunsInRange(cols, runs)
    ensures RunsIn(cols + [col], runs) == RunsIn(cols, runs) + if col.run.Some? then [col.run.value] else []
  {
    if cols != [] {
      assert (cols + [col])[1..] == cols[1..] + [col];
      RunsInSnoc(cols[1..], col, runs);
    } else {
      assert (cols + [col])[1..] == [];
    }
  }

  /** The last visit read in the first `n` columns. */
  lemma {:induction false} LastRunRead(cols: seq<Col>, n: nat, runs: seq<Run>) returns (x: nat)
    requires n <= |cols| && RunsInRange(cols, runs)
    ensures
      var rs := RunsIn(cols[..n], runs);
      if rs == [] then forall y | 0 <= y < n :: cols[y].run.None?
      else x < n && cols[x].run == Some(rs[|rs| - 1]) && forall y | x < y < n :: cols[y].run.None?
  {
    x := 0;
    if n > 0 {
      assert cols[..n] == cols[..n - 1] + [cols[n - 1]];
      RunsInSnoc(cols[..n - 1], cols[n - 1], runs);
      if cols[n - 1].run.Some? { x := n - 1; } else { x := LastRunRead(cols, n - 1, runs); }
    }
  }

  /** How a column is read: a visit is passed over only where the step's skip diverges. */
  lemma ReadColumn(al: seq<Alignment.Column>, steps: seq<Step>, frames: seq<Frame>, c: nat)
    requires Aligned(al, steps, frames) && c < |al|
    ensures
      var col := ColsOf(al, steps, frames)[c];
      && (col.run.Some? ==> col.run == al[c].b)
      && (al[c].b.None? ==> col.verdict != Agrees)
      && (al[c].b.Some? && col.run.None? ==> col.verdict == Diverges)
  {
    AlignedInRange(al, steps, frames);
    assert al[c] in al;
  }

  /** The last diverging column before `hi`. */
  lemma {:induction false} LastDiverging(cols: seq<Col>, x: nat, hi: nat) returns (c: nat)
    requires x < hi <= |cols| && cols[x].verdict == Diverges
    ensures x <= c < hi && cols[c].verdict == Diverges && forall y | c < y < hi :: cols[y].verdict != Diverges
    decreases hi
  {
    if cols[hi - 1].verdict == Diverges { c := hi - 1; } else { c := LastDiverging(cols, x, hi - 1); }
  }

  /** A detour begins a span, so an agreeing column comes between it and any diverging one before. */
  lemma AgreesBetween(cols: seq<Col>, runs: seq<Run>, k: nat, x: nat) returns (y: nat)
    requires RunsInRange(cols, runs) && k < |Detours(cols, runs)| && x < Detours(cols, runs)[k].first
    requires cols[x].verdict == Diverges
    ensures x < y < Detours(cols, runs)[k].first && cols[y].verdict == Agrees
  {
    hide Spans, MergedTo;
    var detours := Detours(cols, runs);
    var first := detours[k].first;
    var c := LastDiverging(cols, x, first);
    var j := ContiguousIff(cols, c, first);
    if first <= Spans(cols)[j].last { SpanOfDetour(cols, runs, j, k); }
    y :| c + 1 <= y < first && y < |cols| && cols[y].verdict != Undecided;
  }

  /** A span that holds the first column of a detour begins with it. */
  lemma SpanOfDetour(cols: seq<Col>, runs: seq<Run>, j: nat, k: nat)
    requires j < |Spans(cols)| && k < |Detours(cols, runs)|
    requires Spans(cols)[j].first <= Detours(cols, runs)[k].first <= Spans(cols)[j].last
    ensures Detours(cols, runs)[k].first <= Spans(cols)[j].first
  {
    hide Spans, MergedTo;
    SpansAreMerged(cols, runs, j);
    var detours := Detours(cols, runs);
    var m :| 0 <= m < |detours| && detours[m].first <= Spans(cols)[j].first && Spans(cols)[j].last <= detours[m].last;
  }

  lemma SpansAreMerged(cols: seq<Col>, runs: seq<Run>, j: nat)
    requires j < |Spans(cols)|
    ensures Within(Spans(cols)[j], Detours(cols, runs))
  {
    MergedFacts(Spans(cols), |Spans(cols)|, cols, runs);
  }

  /** The last visit before a detour is one that was read. */
  lemma VisitBeforeIsRead(al: seq<Alignment.Column>, steps: seq<Step>, frames: seq<Frame>, k: nat)
    requires Aligned(al, steps, frames) && k < |Detours(ColsOf(al, steps, frames), Runs(frames))|
    ensures
      var cols := ColsOf(al, steps, frames);
      var first := Detours(cols, Runs(frames))[k].first;
      && first < |al|
      && RunsInRange(cols[..first], Runs(frames))
      && var before := RunsIn(cols[..first], Runs(frames));
         VisitBefore(al, first) == if before == [] then None else Some(before[|before| - 1])
  {
    hide Aligned, Classified, Spans, MergedTo;
    var cols, runs := ColsOf(al, steps, frames), Runs(frames);
    var first := Detours(cols, runs)[k].first;
    var x := VisitBeforeAt(al, first);
    var z := LastRunRead(cols, first, runs);
    forall c | 0 <= c < first
      ensures cols[c].run.Some? ==> cols[c].run == al[c].b
      ensures al[c].b.None? ==> cols[c].verdict != Agrees
      ensures al[c].b.Some? && cols[c].run.None? ==> cols[c].verdict == Diverges
    {
      ReadColumn(al, steps, frames, c);
    }
    if VisitBefore(al, first).Some? && cols[x].run.None? {
      var y := AgreesBetween(cols, runs, k, x);
      assert false;
    }
  }

  /** A skip is decided on the first frame of the last visit before the column of its
      first step (frame 0 when there is none). */
  lemma SkipDecidedOn(al: seq<Alignment.Column>, steps: seq<Step>, frames: seq<Frame>, k: nat) returns (c: nat)
    requires Aligned(al, steps, frames) && k < |Mined(al, steps, frames)| && Mined(al, steps, frames)[k].alternative == []
    ensures c < |al| && al[c].a.Some? && al[c].a.value < |Canon(steps)|
    ensures Canon(steps)[al[c].a.value].index == Mined(al, steps, frames)[k].stepIndex
    ensures
      match VisitBefore(al, c)
      case None => Mined(al, steps, frames)[k].conditionAt == 0
      case Some(r) => r < |Runs(frames)| && Mined(al, steps, frames)[k].conditionAt == Runs(frames)[r].first
  {
    hide Aligned, Classified, Spans, MergedTo;
    AlignedInRange(al, steps, frames);
    ColumnsInOrder(al, steps, frames);
    var cols, runs := ColsOf(al, steps, frames), Runs(frames);
    var span := Detours(cols, runs)[k];
    c := span.first;
    VisitBeforeIsRead(al, steps, frames, k);
    ColumnReads(al, steps, frames, c);
    SkipSpan(span, cols, runs, |steps|);
  }

  lemma SkipSpan(span: Span, cols: seq<Col>, runs: seq<Run>, nSteps: nat)
    requires span.first <= span.last < |cols| && RunsInRange(cols, runs) && Alternative(span, cols, runs) == []
    requires cols[span.first].step.Some? || cols[span.first].run.Some?
    ensures cols[span.first].step == Some(StepIndex(span, cols, nSteps))
    ensures RunsInRange(cols[..span.first], runs)
    ensures
      var before := RunsIn(cols[..span.first], runs);
      ConditionAt(span, cols, runs) == if before == [] then 0 else runs[before[|before| - 1]].first
  {
    var inside := cols[span.first..span.last + 1];
    assert inside[0] == cols[span.first];
    assert RunsIn(inside, runs) == [];
  }

  /** The visit beginning at frame `f` is one frame long. */
  ghost predicate OneFrameLong(frames: seq<Frame>, f: nat) { f + 1 == |frames| || VisitStart(frames, f + 1) }

  /** A skip is decided on the frame just before it if and only if there is one and the
      visit it belongs to is one frame long; where no frame comes before, on frame 0. */
  lemma SkipDecidedOnFrameBeforeIff(al: seq<Alignment.Column>, steps: seq<Step>, frames: seq<Frame>, k: nat) returns (c: nat)
    requires Aligned(al, steps, frames) && k < |Mined(al, steps, frames)| && Mined(al, steps, frames)[k].alternative == []
    ensures c < |al| && al[c].a.Some? && al[c].a.value < |Canon(steps)|
    ensures Canon(steps)[al[c].a.value].index == Mined(al, steps, frames)[k].stepIndex
    ensures FrameBefore(al, frames, c).None? <==> VisitBefore(al, c).None?
    ensures FrameBefore(al, frames, c).None? ==> Mined(al, steps, frames)[k].conditionAt == 0
    ensures FrameBefore(al, frames, c) == Some(Mined(al, steps, frames)[k].conditionAt) <==>
            FrameBefore(al, frames, c).Some? && OneFrameLong(frames, Mined(al, steps, frames)[k].conditionAt)
  {
    hide Aligned, Mined, VisitBefore, VisitFrom, Canon;
    c := SkipDecidedOn(al, steps, frames, k);
    AlignedInRange(al, steps, frames);
    RunsFacts(frames, |frames|);
    NextVisit(al, |Canon(steps)|, |Runs(frames)|, c);
    MinedHasFrames(al, steps, frames, k);
    assert VisitStart(frames, 0);
    match VisitBefore(al, c) {
      case None =>
      case Some(r) => VisitEnds(Runs(frames), frames, r);
    }
  }

  lemma MinedHasFrames(al: seq<Alignment.Column>, steps: seq<Step>, frames: seq<Frame>, k: nat)
    requires Aligned(al, steps, frames) && k < |Mined(al, steps, frames)|
    ensures frames != []
  {
  }

  /** A visit is one frame long when the next one begins on the next frame, or none follows it. */
  lemma VisitEnds(runs: seq<Run>, frames: seq<Frame>, r: nat)
    requires RunsOf(runs, frames, |frames|) && r < |runs|
    ensures OneFrameLong(frames, runs[r].first) <==>
            runs[r].first + 1 == if r + 1 < |runs| then runs[r + 1].first else |frames|
    ensures r + 1 < |runs| ==> runs[r + 1].first > runs[r].first
  {
    var f := runs[r].first;
    if VisitStart(frames, f + 1) {
      assert Run(frames[f + 1].place, f + 1) in runs;
      var q :| 0 <= q < |runs| && runs[q].first == f + 1;
    }
  }

  // -- Theorem 4: the divergences, read off the alignment.

  /** The visit of column `c` is to a new place. */
  ghost predicate VisitsNew(al: seq<Alignment.Column>, steps: seq<Step>, frames: seq<Frame>, c: nat)
    requires Aligned(al, steps, frames)
  {
    c < |al| && al[c].b.Some? && al[c].b.value < |Runs(frames)| && NewVisit(al, steps, frames, Runs(frames)[al[c].b.value].first)
  }

  /** The step of column `c` is left out. */
  ghost predicate LeavesOut(al: seq<Alignment.Column>, steps: seq<Step>, frames: seq<Frame>, c: nat)
    requires Aligned(al, steps, frames)
  {
    c < |al| && al[c].a.Some? && al[c].a.value < |Canon(steps)| && LeftOut(al, steps, frames, Canon(steps)[al[c].a.value].index)
  }

  /** How each column is read.  It diverges exactly when its visit is to a new place or
      its step is left out; it decides nothing exactly when it has no visit and its step
      is visited elsewhere; its visit is passed over exactly when only its step diverges. */
  lemma ColumnIs(al: seq<Alignment.Column>, steps: seq<Step>, frames: seq<Frame>, c: nat)
    requires Aligned(al, steps, frames) && c < |al|
    ensures
      var col := ColsOf(al, steps, frames)[c];
      var isNew, out := VisitsNew(al, steps, frames, c), LeavesOut(al, steps, frames, c);
      && col.verdict == (if isNew || out then Diverges else if al[c].b.None? then Undecided else Agrees)
      && col.run == (if out && !isNew then None else al[c].b)
      && col.step.Some? == al[c].a.Some?
      && (al[c].a.Some? ==> al[c].a.value < |Canon(steps)| && col.step == Some(Canon(steps)[al[c].a.value].index))
      && (al[c].b.Some? ==> al[c].b.value < |Runs(frames)|)
  {
    hide Site, NewVisit, LeftOut;
    AlignedInRange(al, steps, frames);
    assert al[c] in al;
    if al[c].a.Some? { StepOfColumn(al, steps, frames, c); }
    if al[c].b.Some? {
      NewPlace(al, steps, frames, al[c].b.value);
      PerformedPlace(al, Canon(steps), Runs(frames), al[c]);
    }
  }

  ghost predicate VisitAt(al: seq<Alignment.Column>, frames: seq<Frame>, c: nat, f: nat) {
    c < |al| && al[c].b.Some? && al[c].b.value < |Runs(frames)| && Runs(frames)[al[c].b.value].first == f
  }

  ghost predicate StepAt(al: seq<Alignment.Column>, steps: seq<Step>, c: nat, i: nat) {
    c < |al| && al[c].a.Some? && al[c].a.value < |Canon(steps)| && Canon(steps)[al[c].a.value].index == i
  }

  ghost predicate StepIn(al: seq<Alignment.Column>, steps: seq<Step>, span: Span, i: nat) {
    exists c: nat :: span.first <= c <= span.last && StepAt(al, steps, c, i)
  }

  ghost predicate VisitRead(al: seq<Alignment.Column>, steps: seq<Step>, frames: seq<Frame>, span: Span, f: nat)
    requires Aligned(al, steps, frames)
  {
    exists c: nat :: span.first <= c <= span.last && VisitAt(al, frames, c, f)
      && (LeavesOut(al, steps, frames, c) ==> VisitsNew(al, steps, frames, c))
  }

  /** The first step in the columns from `c` on, the end of the steps without one. */
  ghost function NextStep(al: seq<Alignment.Column>, steps: seq<Step>, c: nat): nat
    requires c <= |al|
    decreases |al| - c
  {
    if c == |al| then |steps|
    else if al[c].a.Some? && al[c].a.value < |Canon(steps)| then Canon(steps)[al[c].a.value].index
    else NextStep(al, steps, c + 1)
  }

  /** The divergence of the columns of `span`: they begin and end on one that diverges;
      the alternative is their visits but for those passed over; the steps replaced
      reach from the first to the last of theirs, and without one the divergence stands
      before the next step. */
  ghost predicate ReadsOff(al: seq<Alignment.Column>, steps: seq<Step>, frames: seq<Frame>, span: Span, d: Divergence)
    requires Aligned(al, steps, frames)
  {
    && span.first <= span.last < |al|
    && (VisitsNew(al, steps, frames, span.first) || LeavesOut(al, steps, frames, span.first))
    && (VisitsNew(al, steps, frames, span.last) || LeavesOut(al, steps, frames, span.last))
    && (forall f: nat :: f in d.alternative <==> VisitRead(al, steps, frames, span, f))
    && (forall i: nat :: StepIn(al, steps, span, i) ==> d.stepIndex <= i < d.rejoinIndex)
    && (if exists i: nat :: StepIn(al, steps, span, i)
        then d.rejoinIndex > 0 && StepIn(al, steps, span, d.stepIndex) && StepIn(al, steps, span, d.rejoinIndex - 1)
        else d.stepIndex == d.rejoinIndex == NextStep(al, steps, span.last + 1))
  }

  lemma StepInIff(al: seq<Alignment.Column>, steps: seq<Step>, frames: seq<Frame>, span: Span, end: nat, i: nat)
    requires Aligned(al, steps, frames) && span.first <= span.last && end == span.last + 1 <= |al|
    ensures StepIn(al, steps, span, i) <==> HasStep(ColsOf(al, steps, frames), span.first, end, i)
  {
    hide Classified, NewVisit, LeftOut, Canon, Runs;
    var cols := ColsOf(al, steps, frames);
    forall c: nat | c < |al|
      ensures cols[c].step == Some(i) <==> StepAt(al, steps, c, i)
    {
      ColumnIs(al, steps, frames, c);
    }
    if StepIn(al, steps, span, i) {
      var c: nat :| span.first <= c <= span.last && StepAt(al, steps, c, i);
      assert cols[c].step == Some(i);
    }
    if HasStep(cols, span.first, end, i) {
      var c :| span.first <= c < end && cols[c].step == Some(i);
      assert StepAt(al, steps, c, i);
    }
  }

  lemma VisitReadIff(al: seq<Alignment.Column>, steps: seq<Step>, frames: seq<Frame>, span: Span, end: nat, f: nat)
    requires Aligned(al, steps, frames) && span.first <= span.last && end == span.last + 1 <= |al|
    ensures VisitRead(al, steps, frames, span, f) <==> StartsIn(ColsOf(al, steps, frames), span.first, end, Runs(frames), f)
  {
    hide Classified, NewVisit, LeftOut, Canon, Runs, LeavesOut, VisitsNew;
    var cols, runs := ColsOf(al, steps, frames), Runs(frames);
    forall c: nat | c < |al|
      ensures cols[c].run == (if LeavesOut(al, steps, frames, c) && !VisitsNew(al, steps, frames, c) then None else al[c].b)
      ensures al[c].b.Some? ==> al[c].b.value < |runs|
    {
      ColumnIs(al, steps, frames, c);
    }
    if VisitRead(al, steps, frames, span, f) {
      var c: nat :| span.first <= c <= span.last && VisitAt(al, frames, c, f)
                    && (LeavesOut(al, steps, frames, c) ==> VisitsNew(al, steps, frames, c));
      assert HasRun(cols, span.first, end, al[c].b.value) by { assert cols[c].run == Some(al[c].b.value); }
    }
    if StartsIn(cols, span.first, end, runs, f) {
      var r: nat :| r < |runs| && runs[r].first == f && HasRun(cols, span.first, end, r);
      var c :| span.first <= c < end && cols[c].run == Some(r);
      assert VisitAt(al, frames, c, f);
    }
  }

  lemma {:induction false} NextStepIs(al: seq<Alignment.Column>, steps: seq<Step>, frames: seq<Frame>, c: nat)
    requires Aligned(al, steps, frames) && c <= |al|
    ensures After(ColsOf(al, steps, frames), c, |steps|) == NextStep(al, steps, c)
    decreases |al| - c
  {
    hide Classified, Canon;
    var cols := ColsOf(al, steps, frames);
    if c < |al| {
      ColumnIs(al, steps, frames, c);
      NextStepIs(al, steps, frames, c + 1);
      assert cols[c..][1..] == cols[c + 1..] && cols[c..][0] == cols[c];
    } else {
      assert cols[c..] == [];
    }
  }

  /** The ends of the replaced steps are steps of the columns. */
  lemma StepsAreTight(span: Span, end: nat, cols: seq<Col>, nSteps: nat, nRuns: nat)
    requires span.first <= span.last < |cols| && Ordered(cols, nSteps, nRuns) && end == span.last + 1
    ensures
      if exists i: nat :: HasStep(cols, span.first, end, i)
      then RejoinIndex(span, cols, nSteps) > 0 && HasStep(cols, span.first, end, StepIndex(span, cols, nSteps))
           && HasStep(cols, span.first, end, RejoinIndex(span, cols, nSteps) - 1)
      else StepIndex(span, cols, nSteps) == RejoinIndex(span, cols, nSteps) == After(cols, end, nSteps)
  {
    hide StepsIn, Ordered, After, HasStep;
    SliceSteps(cols, span.first, end, nSteps, nRuns);
    var replaced := StepsIn(cols[span.first..end]);
    assert replaced == Replaced(span, cols);
    if replaced != [] {
      assert replaced[0] in replaced && replaced[|replaced| - 1] in replaced;
    } else {
      assert forall i: nat :: i in replaced <==> HasStep(cols, span.first, end, i);
    }
  }

  lemma SpanIsRead(al: seq<Alignment.Column>, steps: seq<Step>, frames: seq<Frame>, k: nat)
    requires Aligned(al, steps, frames) && k < |Mined(al, steps, frames)|
    requires k < |Detours(ColsOf(al, steps, frames), Runs(frames))|
    ensures ReadsOff(al, steps, frames, Detours(ColsOf(al, steps, frames), Runs(frames))[k], Mined(al, steps, frames)[k])
  {
    hide Aligned, Classified, NewVisit, LeftOut, LeavesOut, VisitsNew, MergedTo, Spans, StepIn, VisitRead, HasStep, StartsIn,
         StepIndex, RejoinIndex, Alternative, ConditionAt, Ordered, NextStep, After;
    AlignedInRange(al, steps, frames);
    ColumnsInOrder(al, steps, frames);
    var cols, runs, d := ColsOf(al, steps, frames), Runs(frames), Mined(al, steps, frames)[k];
    var span := Detours(cols, runs)[k];
    var end := span.last + 1;
    ColumnIs(al, steps, frames, span.first);
    ColumnIs(al, steps, frames, span.last);
    DivergeSteps(span, end, cols, |steps|, |runs|);
    StepsAreTight(span, end, cols, |steps|, |runs|);
    DivergeRuns(span, end, cols, runs, |steps|);
    NextStepIs(al, steps, frames, end);
    forall f: nat
      ensures f in d.alternative <==> VisitRead(al, steps, frames, span, f)
    {
      VisitReadIff(al, steps, frames, span, end, f);
      StartsAreRead(span, end, cols, runs, |steps|, f);
    }
    forall i: nat
      ensures StepIn(al, steps, span, i) <==> HasStep(cols, span.first, end, i)
    {
      StepInIff(al, steps, frames, span, end, i);
    }
  }

  lemma StartsAreRead(span: Span, end: nat, cols: seq<Col>, runs: seq<Run>, nSteps: nat, f: nat)
    requires span.first <= span.last < |cols| && RunsInRange(cols, runs) && Ordered(cols, nSteps, |runs|)
    requires RunsIncreasing(runs) && end == span.last + 1
    ensures f in Alternative(span, cols, runs) <==> StartsIn(cols, span.first, end, runs, f)
  {
    hide Alternative, Ordered, RunsIncreasing, HasRun;
    DivergeRuns(span, end, cols, runs, nSteps);
  }

  /** What `find_divergences` returns, for any monotone alignment: one divergence for each
      of a list of column spans, in order and apart, that together hold every column
      that diverges. */
  lemma MinedIsReadOff(al: seq<Alignment.Column>, steps: seq<Step>, frames: seq<Frame>) returns (spans: seq<Span>)
    requires Aligned(al, steps, frames) && Comparable(steps, frames)
    ensures |spans| == |Mined(al, steps, frames)|
    ensures forall k | 0 <= k < |spans| :: ReadsOff(al, steps, frames, spans[k], Mined(al, steps, frames)[k])
    ensures forall k, l | 0 <= k < l < |spans| :: spans[k].last < spans[l].first
    ensures forall c: nat :: VisitsNew(al, steps, frames, c) || LeavesOut(al, steps, frames, c) ==> Covers(spans, c)
  {
    hide Aligned, Classified, NewVisit, LeftOut, MergedTo, Spans, ReadsOff, Covers;
    AlignedInRange(al, steps, frames);
    var cols, runs := ColsOf(al, steps, frames), Runs(frames);
    spans := Detours(cols, runs);
    forall k | 0 <= k < |spans|
      ensures ReadsOff(al, steps, frames, spans[k], Mined(al, steps, frames)[k])
    {
      SpanIsRead(al, steps, frames, k);
    }
    forall c: nat | VisitsNew(al, steps, frames, c) || LeavesOut(al, steps, frames, c)
      ensures Covers(spans, c)
    {
      ColumnIs(al, steps, frames, c);
      DetoursCover(cols, runs, c);
    }
  }

  /** An instance that performs every step, and visits nothing else, does not diverge:
      when every column pairs a step with a visit of one site there is no divergence. */
  lemma PerformedAsWritten(al: seq<Alignment.Column>, steps: seq<Step>, frames: seq<Frame>)
    requires Aligned(al, steps, frames)
    requires forall c: nat | c < |al| ::
      && al[c].a.Some? && al[c].a.value < |Canon(steps)| && al[c].b.Some? && al[c].b.value < |Runs(frames)|
      && OneSite(Runs(frames)[al[c].b.value].place, Canon(steps)[al[c].a.value].place)
    ensures Mined(al, steps, frames) == []
  {
    hide OneSite, Classified;
    if Mined(al, steps, frames) != [] {
      var spans := MinedIsReadOff(al, steps, frames);
      var c := spans[0].first;
      assert ReadsOff(al, steps, frames, spans[0], Mined(al, steps, frames)[0]);
      DoneIsNeither(al, steps, frames, c);
    }
  }

  lemma DoneIsNeither(al: seq<Alignment.Column>, steps: seq<Step>, frames: seq<Frame>, c: nat)
    requires Aligned(al, steps, frames) && DoneAt(al, steps, frames, c)
    ensures !VisitsNew(al, steps, frames, c) && !LeavesOut(al, steps, frames, c)
  {
    hide OneSite, Canon;
    RunsFacts(frames, |frames|);
    var run := Runs(frames)[al[c].b.value];
    assert frames[run.first].place == run.place;
    assert PerformedOn(al, steps, frames, run.place);
    assert StepPerformed(al, steps, frames, Canon(steps)[al[c].a.value].index);
  }

  // ------------------------------------------------------------ the method

  /** The aligner's similarity of two places, over the positions of the two sides. */
  function PlaceSimilarity(canon: seq<CanonStep>, runs: seq<Run>, sim: (Place, Place) -> real): Alignment.Similarity {
    (i: nat, j: nat) => if i < |canon| && j < |runs| then sim(canon[i].place, runs[j].place) else 0.0
  }

  /** The alignment the aligner chooses. */
  ghost function Chosen(steps: seq<Step>, frames: seq<Frame>, sim: (Place, Place) -> real, gap: real): (al: seq<Alignment.Column>)
    ensures Aligned(al, steps, frames)
  {
    var canon, runs := Canon(steps), Runs(frames);
    var similarity := PlaceSimilarity(canon, runs, sim);
    Alignment.TracedAligns(|canon|, |runs|, similarity, gap);
    Alignment.Traced(|canon|, |runs|, similarity, gap)
  }

  /** The alignment chosen scores at least as much as any other, a pair scoring the
      similarity of its places and anything alone the gap. */
  lemma ChosenIsBest(steps: seq<Step>, frames: seq<Frame>, sim: (Place, Place) -> real, gap: real,
                     other: seq<Alignment.Column>, score: Alignment.Similarity)
    requires Aligned(other, steps, frames)
    requires forall i, j | 0 <= i < |Canon(steps)| && 0 <= j < |Runs(frames)| ::
      score(i, j) == sim(Canon(steps)[i].place, Runs(frames)[j].place)
    ensures Alignment.Score(other, score, gap) <= Alignment.Score(Chosen(steps, frames, sim, gap), score, gap)
  {
    var canon, runs := Canon(steps), Runs(frames);
    var similarity := PlaceSimilarity(canon, runs, sim);
    Alignment.TracedIsOptimal(other, |canon|, |runs|, similarity, gap);
    SameScore(other, 0, 0, |canon|, |runs|, similarity, score, gap);
    SameScore(Chosen(steps, frames, sim, gap), 0, 0, |canon|, |runs|, similarity, score, gap);
  }

  lemma {:induction false} SameScore(al: seq<Alignment.Column>, i: nat, j: nat, m: nat, n: nat,
                                     s: Alignment.Similarity, t: Alignment.Similarity, gap: real)
    requires Alignment.Aligns(al, i, j, m, n) && forall x, y | 0 <= x < m && 0 <= y < n :: s(x, y) == t(x, y)
    ensures Alignment.Score(al, s, gap) == Alignment.Score(al, t, gap)
    decreases |al|
  {
    if al != [] {
      var i', j' := if al[0].a.Some? then i + 1 else i, if al[0].b.Some? then j + 1 else j;
      AlignsIsMonotone(al[1..], i', j', m, n);
      SameScore(al[1..], i', j', m, n, s, t, gap);
    }
  }

  ghost function Found(steps: seq<Step>, frames: seq<Frame>, sim: (Place, Place) -> real, gap: real): seq<Divergence> {
    Mined(Chosen(steps, frames, sim, gap), steps, frames)
  }

  method CollapseRuns(frames: seq<Frame>) returns (runs: seq<Run>)
    ensures runs == Runs(frames)
  {
    runs := [];
    for idx := 0 to |frames|
      invariant runs == RunsTo(frames, idx)
    {
      if runs == [] || runs[|runs| - 1].place != frames[idx].place {
        runs := runs + [Run(frames[idx].place, idx)];
      }
    }
  }

  /** One column of the scan for spans. */
  method ExtendSpans(spans: seq<Span>, cols: seq<Col>, c: nat) returns (next: seq<Span>)
    requires c < |cols|
    ensures next == AddColumn(cols, c, spans)
  {
    next := spans;
    if cols[c].verdict == Diverges {
      if spans != [] && AllUndecided(cols, spans[|spans| - 1].last + 1, c) {
        next := spans[|spans| - 1 := Span(spans[|spans| - 1].first, c)];
      } else {
        next := spans + [Span(c, c)];
      }
    }
  }

  method FindSpans(cols: seq<Col>) returns (spans: seq<Span>)
    ensures spans == Spans(cols)
  {
    spans := [];
    for c := 0 to |cols|
      invariant spans == SpansTo(cols, c)
    {
      spans := ExtendSpans(spans, cols, c);
    }
  }

  /** One span of the merge: a return to the detour just before continues it. */
  method MergeSpan(merged: seq<Span>, span: Span, cols: seq<Col>, runs: seq<Run>) returns (next: seq<Span>)
    ensures next == AddSpan(span, merged, cols, runs)
  {
    if merged != [] && Continues(span, merged[|merged| - 1], cols, runs) {
      next := merged[|merged| - 1 := Span(merged[|merged| - 1].first, span.last)];
    } else {
      next := merged + [span];
    }
  }

  method MergeSpans(spans: seq<Span>, cols: seq<Col>, runs: seq<Run>) returns (merged: seq<Span>)
    ensures merged == MergedTo(spans, |spans|, cols, runs)
  {
    merged := [];
    for k := 0 to |spans|
      invariant merged == MergedTo(spans, k, cols, runs)
    {
      merged := MergeSpan(merged, spans[k], cols, runs);
    }
  }

  method ClassifyColumns(al: seq<Alignment.Column>, canon: seq<CanonStep>, runs: seq<Run>) returns (cols: seq<Col>)
    requires forall c | c in al :: InRange(c, canon, runs)
    ensures cols == Classified(al, canon, runs)
  {
    var known := Known(al, canon, runs);
    cols := [];
    for k := 0 to |al|
      invariant cols == Columns(al, canon, runs, known)[..k]
    {
      assert al[k] in al;
      cols := cols + [Classify(al[k], canon, runs, known)];
    }
  }

  method ReadDivergences(cols: seq<Col>, runs: seq<Run>, nSteps: nat) returns (divergences: seq<Divergence>)
    requires RunsInRange(cols, runs)
    ensures divergences == DivergesOf(cols, runs, nSteps)
  {
    hide Spans, MergedTo, Diverge;
    var spans := FindSpans(cols);
    var merged := MergeSpans(spans, cols, runs);
    divergences := [];
    ghost var all := DivergesOf(cols, runs, nSteps);
    for k := 0 to |merged|
      invariant divergences == all[..k]
    {
      divergences := divergences + [Diverge(merged[k], cols, runs, nSteps)];
    }
  }

  /** The divergences of the frames from the steps, under the alignment the
      aligner chooses (`sim` and `gap` are its similarity and gap penalty). */
  method FindDivergences(steps: seq<Step>, frames: seq<Frame>, sim: (Place, Place) -> real, gap: real)
    returns (divergences: seq<Divergence>)
    ensures divergences == Found(steps, frames, sim, gap)
  {
    var canon := Canon(steps);
    if canon == [] || frames == [] {
      return [];
    }
    var runs := CollapseRuns(frames);
    var al := Alignment.SemanticAlign(|canon|, |runs|, PlaceSimilarity(canon, runs, sim), gap);
    assert al == Chosen(steps, frames, sim, gap);
    AlignedInRange(al, steps, frames);
    var cols := ClassifyColumns(al, canon, runs);
    divergences := ReadDivergences(cols, runs, |steps|);
  }
}
