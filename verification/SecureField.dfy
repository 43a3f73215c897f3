/**
 Detection of a focused secure field: the flag that stops capture, driven by focus
 events and by deferred callbacks that may be stale when they come.
 */
module SecureField {
  import opened Common

  type Id = nat

  datatype Kind = Input | TextArea | Other

  /** An element as `isSecureField` reads it: its autocomplete tokens, name and id in lower
      case; `wasSecure` is the mark left on a field seen as a password. */
  datatype Element = Element(kind: Kind, password: bool, wasSecure: bool, tokens: seq<string>, name: string, id: string)

  const SECURE_AUTOCOMPLETE_VALUES: seq<string> := [
    "current-password", "new-password", "one-time-code",
    "cc-number", "cc-exp", "cc-exp-month", "cc-exp-year", "cc-csc", "cc-name", "cc-type",
    "cc-given-name", "cc-family-name", "cc-additional-name"]

  const SECURE_NAME_PATTERNS: seq<string> := [
    "password", "passwd", "card-number", "cardnumber", "cc-num", "cvv", "cvc", "security-code",
    "expiry", "card-expiry", "card-holder", "otp", "one-time", "mfa", "2fa", "totp",
    "verification-code", "backup-code", "recovery-code"]

  /** `s.includes(pattern)`. */
  predicate Includes(s: string, pattern: string) {
    pattern <= s || (s != [] && Includes(s[1..], pattern))
  }

  /** One of its tokens is listed, or its name or id mentions a listed pattern. */
  predicate Listed(e: Element) {
    || (exists k | 0 <= k < |e.tokens| :: e.tokens[k] in SECURE_AUTOCOMPLETE_VALUES)
    || (exists k | 0 <= k < |SECURE_NAME_PATTERNS| ::
          Includes(e.name, SECURE_NAME_PATTERNS[k]) || Includes(e.id, SECURE_NAME_PATTERNS[k]))
  }

  predicate Secure(e: Element) { e.kind != Other && ((e.kind == Input && e.password) || e.wasSecure || Listed(e)) }

  lemma {:induction false} IncludesIff(s: string, pattern: string)
    ensures Includes(s, pattern) <==> exists a: string, b: string :: s == a + pattern + b
  {
    if Includes(s, pattern) {
      var a, b := FoundIn(s, pattern);
    }
    if a: string, b: string :| s == a + pattern + b {
      IncludesAt(a, pattern, b);
    }
  }

  lemma {:induction false} FoundIn(s: string, pattern: string) returns (a: string, b: string)
    requires Includes(s, pattern)
    ensures s == a + pattern + b
  {
    if pattern <= s {
      a, b := [], s[|pattern|..];
    } else {
      a, b := FoundIn(s[1..], pattern);
      a := [s[0]] + a;
    }
  }

  lemma {:induction false} IncludesAt(a: string, pattern: string, b: string)
    ensures Includes(a + pattern + b, pattern)
  {
    if a == [] {
      assert a + pattern + b == pattern + b;
    } else {
      assert (a + pattern + b)[1..] == a[1..] + pattern + b;
      IncludesAt(a[1..], pattern, b);
    }
  }

  /** An input or text area is secure if it is a password input, was seen as one, has a
      listed autocomplete token, or a name or id that mentions a listed pattern;
      nothing else is. */
  lemma SecureIff(e: Element)
    ensures Secure(e) <==>
            && (e.kind == Input || e.kind == TextArea)
            && (|| (e.kind == Input && e.password)
                || e.wasSecure
                || (exists token :: token in e.tokens && token in SECURE_AUTOCOMPLETE_VALUES)
                || (exists pattern :: pattern in SECURE_NAME_PATTERNS && Mentions(e, pattern)))
  {
    hide Includes;
    forall k | 0 <= k < |SECURE_NAME_PATTERNS|
      ensures Mentions(e, SECURE_NAME_PATTERNS[k]) <==> Includes(e.name, SECURE_NAME_PATTERNS[k]) || Includes(e.id, SECURE_NAME_PATTERNS[k])
    {
      IncludesIff(e.name, SECURE_NAME_PATTERNS[k]);
      IncludesIff(e.id, SECURE_NAME_PATTERNS[k]);
    }
    hide SECURE_NAME_PATTERNS, SECURE_AUTOCOMPLETE_VALUES;
    if pattern :| pattern in SECURE_NAME_PATTERNS && Mentions(e, pattern) {
      var k :| 0 <= k < |SECURE_NAME_PATTERNS| && SECURE_NAME_PATTERNS[k] == pattern;
    }
    if token :| token in e.tokens && token in SECURE_AUTOCOMPLETE_VALUES {
      var k :| 0 <= k < |e.tokens| && e.tokens[k] == token;
    }
  }

  ghost predicate Mentions(e: Element, pattern: string) {
    || (exists a: string, b: string :: e.name == a + pattern + b)
    || (exists a: string, b: string :: e.id == a + pattern + b)
  }

  type Page = map<Id, Element>

  predicate SecureAt(page: Page, el: Option<Id>) { el.Some? && el.value in page && Secure(page[el.value]) }

  /** The page after the element was looked at. */
  function MarkedAt(page: Page, el: Option<Id>): Page {
    if el.Some? && el.value in page && page[el.value].kind == Input && page[el.value].password
    then page[el.value := page[el.value].(wasSecure := true)]
    else page
  }

  // -------------------------------------------------------------- handlers

  /** What the detector holds; `sent` is the statuses sent, `callbacks` the sequence
      numbers of the deferred callbacks that have not run. */
  datatype Detection = Detection(page: Page, flag: bool, focusSeq: nat, callbacks: set<nat>, sent: seq<bool>)

  function WithFlag(d: Detection, value: bool): Detection {
    if value == d.flag then d else d.(flag := value, sent := d.sent + [value])
  }

  function OnFocusIn(d: Detection, target: Option<Id>): Detection {
    var seen := d.(focusSeq := d.focusSeq + 1, page := MarkedAt(d.page, target));
    WithFlag(seen, SecureAt(d.page, target))
  }

  function OnFocusOut(d: Detection, related: Option<Id>): Detection {
    if !d.flag then d else
      var seen := d.(page := MarkedAt(d.page, related));
      if SecureAt(d.page, related) then seen
      else seen.(focusSeq := d.focusSeq + 1, callbacks := d.callbacks + {d.focusSeq + 1})
  }

  function OnCallback(d: Detection, number: nat, active: Option<Id>): Detection {
    var ran := d.(callbacks := d.callbacks - {number});
    if number != d.focusSeq then ran else
      var seen := ran.(page := MarkedAt(d.page, active));
      if SecureAt(d.page, active) then seen else WithFlag(seen, false)
  }

  // ----------------------------------------------------------- environment

  /** A focus event the browser has sent and the detector has not handled. */
  datatype Event = Out(related: Option<Id>) | In(target: Id)

  /** The page's focus beside the detector: the active element, the element focus is on
      its way to while nothing is active, and whether focus was lost with no event sent. */
  datatype State = State(d: Detection, active: Option<Id>, heading: Option<Id>, lost: bool, events: seq<Event>)

  datatype Step =
    | Leave(related: Option<Id>)
    | Arrive(target: Id)
    | Lose
    | WindowBlur
    | WindowFocus
    | Handle
    | RunCallback(number: nat)
    | Alter(id: Id, element: Element)

  /** The target of the last focusin outstanding. */
  function LastIn(events: seq<Event>): Option<Id> {
    if events == [] then None
    else match events[|events| - 1]
      case In(target) => Some(target)
      case Out(_) => LastIn(events[..|events| - 1])
  }

  /** The page may at any time lose the focus with no event: the active element leaves
      the document, or the one focus heads for is hidden or disabled and refuses it.
      When the window loses the focus the active element stays, and a focusout is sent;
      a focusin when it comes back.  The page may change a field at any time and any way
      that keeps the mark, but not whether the focused element is secure once its
      focusin is handled. */
  predicate Enabled(s: State, step: Step) {
    match step
    case Leave(_) => s.active.Some?
    case Arrive(_) => s.active.None?
    case Lose => true
    case WindowBlur => s.active.Some?
    case WindowFocus => s.active.Some?
    case Handle => s.events != []
    case RunCallback(number) => number in s.d.callbacks
    case Alter(id, element) =>
      && KeepsMark(s, id, element)
      && (LastIn(s.events).None? && s.active == Some(id) ==> Secure(element) == SecureAt(s.d.page, s.active))
  }

  predicate KeepsMark(s: State, id: Id, element: Element) {
    id in s.d.page && s.d.page[id].wasSecure ==> element.wasSecure && element.kind == s.d.page[id].kind
  }

  function Next(s: State, step: Step): State
    requires Enabled(s, step)
  {
    match step
    case Leave(related) => s.(active := None, heading := related, events := s.events + [Out(related)])
    case Arrive(target) => s.(active := Some(target), heading := None, lost := false, events := s.events + [In(target)])
    case Lose => s.(active := None, heading := None, lost := true)
    case WindowBlur => s.(events := s.events + [Out(None)])
    case WindowFocus => s.(events := s.events + [In(s.active.value)])
    case Handle => s.(d := Handled(s.d, s.events[0]), events := s.events[1..])
    case RunCallback(number) => s.(d := OnCallback(s.d, number, s.active))
    case Alter(id, element) => Altered(s, id, element)
  }

  function Handled(d: Detection, event: Event): Detection {
    match event
    case Out(related) => OnFocusOut(d, related)
    case In(target) => OnFocusIn(d, Some(target))
  }

  function Altered(s: State, id: Id, element: Element): State { s.(d := s.d.(page := s.d.page[id := element])) }

  predicate Run(s: State, steps: seq<Step>, end: State)
    decreases |steps|
  {
    if steps == [] then s == end
    else Enabled(s, steps[0]) && Run(Next(s, steps[0]), steps[1..], end)
  }

  function Init(page: Page, active: Option<Id>): State {
    State(Detection(page, false, 0, {}, []), active, None, false, [])
  }

  // -------------------------------------------------------------- invariant

  /** The last event outstanding says where the focus is or heads, unless the window or
      the page lost it; the last focusin outstanding is of the active element if there is one;
      callbacks carry numbers already given; the statuses sent alternate. */
  predicate Shaped(s: State) {
    && (s.lost ==> s.active.None? && s.heading.None?)
    && (s.active.Some? ==> s.heading.None? && (LastIn(s.events).Some? ==> LastIn(s.events) == s.active))
    && (s.events != [] && !s.lost ==>
          match s.events[|s.events| - 1]
          case Out(related) => related.Some? ==> s.active.None? && s.heading == related
          case In(target) => s.active == Some(target))
    && (forall c | c in s.d.callbacks :: c <= s.d.focusSeq)
    && (forall i | 0 <= i < |s.d.sent| :: s.d.sent[i] == (i % 2 == 0))
    && s.d.flag == (|s.d.sent| % 2 == 1)
  }

  /** A secure field in focus is flagged, or its focusin is still to be handled. */
  predicate Covered(s: State) { SecureAt(s.d.page, s.active) && !s.d.flag ==> LastIn(s.events).Some? }

  /** A flag with no secure field in focus is about to be cleared. */
  predicate Clearing(s: State) { s.d.flag && !SecureAt(s.d.page, s.active) ==> s.d.focusSeq in s.d.callbacks }

  /** So it is once the events are handled, unless focus is on its way or was lost. */
  predicate Released(s: State) { Settled(s) ==> Clearing(s) }

  predicate Valid(s: State) { Shaped(s) && Covered(s) && Released(s) }

  predicate Settled(s: State) { s.events == [] && s.heading.None? && !s.lost }

  lemma LookingKeepsVerdicts(page: Page, el: Option<Id>, other: Option<Id>)
    ensures SecureAt(MarkedAt(page, el), other) == SecureAt(page, other)
  {
  }

  lemma HandleKeeps(s: State)
    requires Valid(s) && s.events != []
    ensures Valid(Next(s, Handle))
  {
    hide SecureAt, MarkedAt;
    var event, end := s.events[0], Next(s, Handle);
    var looked := if event.In? then Some(event.target) else event.related;
    LookingKeepsVerdicts(s.d.page, looked, s.active);
    LookingKeepsVerdicts(s.d.page, looked, looked);
    NothingIsPlain(s.d.page);
    LastInRest(s.events);
    if |s.events| > 1 {
      assert end.events[|end.events| - 1] == s.events[|s.events| - 1];
    }
  }

  lemma LastInMore(events: seq<Event>, event: Event)
    ensures LastIn(events + [event]) == if event.In? then Some(event.target) else LastIn(events)
  {
    assert (events + [event])[..|events|] == events;
  }

  lemma {:induction false} LastInRest(events: seq<Event>)
    requires events != []
    ensures LastIn(events) ==
            if LastIn(events[1..]).Some? then LastIn(events[1..])
            else if events[0].In? then Some(events[0].target) else None
    decreases |events|
  {
    if |events| > 1 && events[|events| - 1].Out? {
      LastInRest(events[..|events| - 1]);
      assert events[..|events| - 1][1..] == events[1..][..|events| - 2];
    }
  }

  lemma {:induction false} LastInIsIn(events: seq<Event>)
    ensures LastIn(events).Some? ==> In(LastIn(events).value) in events
    decreases |events|
  {
    if events != [] && events[|events| - 1].Out? { LastInIsIn(events[..|events| - 1]); }
  }

  lemma NothingIsPlain(page: Page)
    ensures !SecureAt(page, None)
  {
  }

  lemma CallbackKeeps(s: State, number: nat)
    requires Valid(s) && number in s.d.callbacks
    ensures Valid(Next(s, RunCallback(number)))
  {
    hide SecureAt, MarkedAt;
    LookingKeepsVerdicts(s.d.page, s.active, s.active);
  }

  lemma StepKeeps(s: State, step: Step)
    requires Valid(s) && Enabled(s, step)
    ensures Valid(Next(s, step))
  {
    match step {
      case Handle => HandleKeeps(s);
      case RunCallback(number) => CallbackKeeps(s, number);
      case Leave(related) => LastInMore(s.events, Out(related));
      case Arrive(target) => LastInMore(s.events, In(target));
      case Lose =>
      case WindowBlur => LastInMore(s.events, Out(None));
      case WindowFocus => LastInMore(s.events, In(s.active.value));
      case Alter(_, _) =>
    }
  }

  lemma {:induction false} RunsAreValid(s: State, steps: seq<Step>, end: State)
    requires Valid(s) && Run(s, steps, end)
    ensures Valid(end)
    decreases |steps|
  {
    hide Valid, Enabled, Next;
    if steps != [] {
      StepKeeps(s, steps[0]);
      RunsAreValid(Next(s, steps[0]), steps[1..], end);
    }
  }

  // --------------------------------------------------------------- theorems

  /** The detector starts right exactly when the element active at its start is not
      secure: it does not look at it. */
  lemma StartIsValidIff(page: Page, active: Option<Id>)
    ensures Valid(Init(page, active)) <==> !SecureAt(page, active)
  {
    var s := Init(page, active);
    assert SecureAt(page, active) ==> !Covered(s);
  }

  /** In every run: a secure field in focus is flagged once its events are handled; a
      flag without one has its callback pending once they are, unless focus is announced
      and has not arrived or was lost with no event; at rest otherwise the flag says
      exactly whether a secure field has the focus, and so does the last status sent. */
  lemma FlagFollowsFocus(page: Page, active: Option<Id>, steps: seq<Step>, s: State)
    requires !SecureAt(page, active) && Run(Init(page, active), steps, s)
    ensures SecureAt(s.d.page, s.active) && !s.d.flag ==> In(s.active.value) in s.events
    ensures s.d.flag && !SecureAt(s.d.page, s.active) && s.events == [] && s.d.focusSeq !in s.d.callbacks ==>
              s.active.None? && (s.heading.Some? || s.lost)
    ensures Settled(s) && s.d.callbacks == {} ==> s.d.flag == SecureAt(s.d.page, s.active)
    ensures s.d.flag == (s.d.sent != [] && s.d.sent[|s.d.sent| - 1])
    ensures forall i, j | 0 <= i < |s.d.sent| && j == i + 1 && j < |s.d.sent| :: s.d.sent[i] != s.d.sent[j]
  {
    hide SecureAt, Run;
    StartIsValidIff(page, active);
    RunsAreValid(Init(page, active), steps, s);
    NothingIsPlain(s.d.page);
    LastInIsIn(s.events);
  }

  /** The callbacks run one after another with nothing else between. */
  function AllRun(d: Detection, order: seq<nat>, active: Option<Id>): Detection
    decreases |order|
  {
    if order == [] then d else AllRun(OnCallback(d, order[0], active), order[1..], active)
  }

  lemma OrderLeft(order: seq<nat>)
    requires order != [] && forall i, j | 0 <= i < j < |order| :: order[i] != order[j]
    ensures (set c | c in order) - {order[0]} == (set c | c in order[1..])
  {
    assert order == [order[0]] + order[1..];
  }

  /** Once the events are handled, the pending callbacks, in whatever order they come,
      bring the flag to the focus; none of them clears it under a secure field. */
  lemma {:induction false} CallbacksSettle(s: State, order: seq<nat>)
    requires Valid(s) && Settled(s) && s.d.callbacks == (set c | c in order)
    requires forall i, j | 0 <= i < j < |order| :: order[i] != order[j]
    ensures AllRun(s.d, order, s.active).callbacks == {}
    ensures AllRun(s.d, order, s.active).flag == SecureAt(s.d.page, s.active)
    ensures SecureAt(s.d.page, s.active) ==> AllRun(s.d, order, s.active).sent == s.d.sent
    decreases |order|
  {
    hide SecureAt, MarkedAt;
    if order != [] {
      var next := Next(s, RunCallback(order[0]));
      CallbackKeeps(s, order[0]);
      LookingKeepsVerdicts(s.d.page, s.active, s.active);
      assert next.d.callbacks == (set c | c in order[1..]) by { OrderLeft(order); }
      CallbacksSettle(next, order[1..]);
    }
  }

  // ----------------------------------------------------- what the page may do

  /** A change of the focused, settled element keeps the invariant exactly when it does
      not turn an unflagged one secure, nor a flagged one plain with no callback due. */
  lemma AlterKeepsIff(s: State, id: Id, element: Element)
    requires Valid(s)
    ensures Valid(Altered(s, id, element)) <==>
            !(s.active == Some(id)
              && if Secure(element) then !s.d.flag && LastIn(s.events).None?
                 else s.events == [] && s.d.flag && s.d.focusSeq !in s.d.callbacks)
  {
    var end := Altered(s, id, element);
    assert Shaped(end);
    assert s.active != Some(id) ==> SecureAt(end.d.page, s.active) == SecureAt(s.d.page, s.active);
  }

  /** At rest, taking the focused element out of the document with no event leaves the
      flag right exactly when the element was not secure; otherwise the flag stays up,
      and the next focusin handled puts it right. */
  lemma RemovalIsSeenIff(s: State, target: Id)
    requires Valid(s) && Settled(s) && s.d.callbacks == {}
    ensures
      var removed := Next(s, Lose);
      && (removed.d.flag == SecureAt(removed.d.page, removed.active) <==> !SecureAt(s.d.page, s.active))
      && Repaired(removed, target)
  {
    hide MarkedAt;
    NothingIsPlain(s.d.page);
    LoseKeeps(s);
    ArrivalRepairs(Next(s, Lose), target);
  }

  /** The next focusin handled makes the flag right. */
  predicate Repaired(s: State, target: Id)
    requires s.active.None?
  {
    var arrived := Next(s, Arrive(target));
    s.events == [] ==> Valid(Next(arrived, Handle)) && Settled(Next(arrived, Handle))
                       && Next(arrived, Handle).d.flag == SecureAt(Next(arrived, Handle).d.page, Some(target))
  }

  lemma LoseKeeps(s: State)
    requires Valid(s)
    ensures Valid(Next(s, Lose))
  {
  }

  lemma ArrivalRepairs(s: State, target: Id)
    requires Valid(s) && s.active.None?
    ensures Repaired(s, target)
  {
    hide MarkedAt, SecureAt;
    var arrived := Next(s, Arrive(target));
    StepKeeps(s, Arrive(target));
    HandleKeeps(arrived);
    if s.events == [] {
      assert arrived.events == [In(target)];
      LookingKeepsVerdicts(s.d.page, Some(target), Some(target));
    }
  }

  /** Focus leaves the active element for another that refuses it, and the focusout is
      handled: a callback is pending, or there is no flag to clear, exactly when there
      was no flag, the announced element is not secure, or a callback was already due.
      Otherwise the flag stays up over no field, until the next focusin handled. */
  lemma RefusalIsSeenIff(s: State, related: Option<Id>, target: Id)
    requires Valid(s) && s.active.Some? && s.events == []
    ensures
      var refused := Next(Next(Next(s, Leave(related)), Handle), Lose);
      && refused.events == [] && refused.active.None?
      && (Clearing(refused) <==> !s.d.flag || !SecureAt(s.d.page, related) || s.d.focusSeq in s.d.callbacks)
      && Repaired(refused, target)
  {
    hide MarkedAt, Repaired;
    var left := Next(s, Leave(related));
    StepKeeps(s, Leave(related));
    assert left.events == [Out(related)];
    HandleKeeps(left);
    LoseKeeps(Next(left, Handle));
    NothingIsPlain(Next(left, Handle).d.page);
    ArrivalRepairs(Next(Next(left, Handle), Lose), target);
  }

  /** An instance: focus leaves one password for another, which the page disables. */
  lemma RefusedFocus() returns (steps: seq<Step>, end: State)
    ensures
      var password := Element(Input, true, false, [], "", "");
      Run(Init(map[0 := password, 1 := password], None), steps, end)
    ensures end.events == [] && end.d.callbacks == {} && end.active.None? && end.d.flag
  {
    var password := Element(Input, true, false, [], "", "");
    var s0 := Init(map[0 := password, 1 := password], None);
    var s1 := Next(s0, Arrive(0));
    var s2 := Next(s1, Handle);
    var s3 := Next(s2, Leave(Some(1)));
    var s4 := Next(s3, Handle);
    end := Next(s4, Lose);
    steps := [Arrive(0), Handle, Leave(Some(1)), Handle, Lose];
    RunFrom(s4, Lose, [], end);
    RunFrom(s3, Handle, [Lose], end);
    RunFrom(s2, Leave(Some(1)), [Handle, Lose], end);
    RunFrom(s1, Handle, [Leave(Some(1)), Handle, Lose], end);
    RunFrom(s0, Arrive(0), [Handle, Leave(Some(1)), Handle, Lose], end);
    assert [Arrive(0)] + [Handle, Leave(Some(1)), Handle, Lose] == steps;
    assert [Handle] + [Leave(Some(1)), Handle, Lose] == [Handle, Leave(Some(1)), Handle, Lose];
    assert [Leave(Some(1))] + [Handle, Lose] == [Leave(Some(1)), Handle, Lose];
    assert [Handle] + [Lose] == [Handle, Lose] && [Lose] + [] == [Lose];
  }

  lemma RunFrom(s: State, step: Step, rest: seq<Step>, end: State)
    requires Enabled(s, step) && Run(Next(s, step), rest, end)
    ensures Run(s, [step] + rest, end)
  {
    assert ([step] + rest)[1..] == rest;
  }

  /** A field once seen as a password stays secure through every run, whatever the page
      makes of its type, name and tokens. */
  lemma {:induction false} MarkStays(s: State, steps: seq<Step>, end: State, id: Id)
    requires Run(s, steps, end)
    requires id in s.d.page && s.d.page[id].wasSecure && s.d.page[id].kind != Other
    ensures id in end.d.page && Secure(end.d.page[id])
    decreases |steps|
  {
    if steps != [] {
      var next := Next(s, steps[0]);
      assert id in next.d.page && next.d.page[id].wasSecure && next.d.page[id].kind != Other;
      MarkStays(next, steps[1..], end, id);
    }
  }

  /** So a password that gained the focus stays secure when it is shown as text. */
  lemma RevealedStaysSecure(s: State, id: Id, steps: seq<Step>, end: State)
    requires s.events != [] && s.events[0] == In(id) && Run(Next(s, Handle), steps, end)
    requires id in s.d.page && s.d.page[id].kind == Input && s.d.page[id].password
    ensures id in end.d.page && Secure(end.d.page[id])
  {
    MarkStays(Next(s, Handle), steps, end, id);
  }

  // ------------------------------------------------------------ the detector

  class Detector {
    var page: Page
    var currentlySecure: bool
    var focusSeq: nat
    var callbacks: set<nat>
    var sent: seq<bool>

    function View(): Detection
      reads this
    {
      Detection(page, currentlySecure, focusSeq, callbacks, sent)
    }

    constructor (page: Page)
      ensures View() == Init(page, None).d
    {
      this.page := page;
      currentlySecure, focusSeq, callbacks, sent := false, 0, {}, [];
    }

    method IsSecureField(el: Option<Id>) returns (secure: bool)
      modifies this`page
      ensures secure == SecureAt(old(page), el) && page == MarkedAt(old(page), el)
    {
      if el.None? || el.value !in page {
        return false;
      }
      var e := page[el.value];
      var isInput := e.kind == Input;
      if !isInput && e.kind != TextArea {
        return false;
      }
      if isInput && e.password {
        page := page[el.value := e.(wasSecure := true)];
        return true;
      }
      if e.wasSecure {
        return true;
      }
      for k := 0 to |e.tokens|
        invariant forall i | 0 <= i < k :: e.tokens[i] !in SECURE_AUTOCOMPLETE_VALUES
      {
        if e.tokens[k] in SECURE_AUTOCOMPLETE_VALUES {
          return true;
        }
      }
      for k := 0 to |SECURE_NAME_PATTERNS|
        invariant forall i | 0 <= i < k ::
          !Includes(e.name, SECURE_NAME_PATTERNS[i]) && !Includes(e.id, SECURE_NAME_PATTERNS[i])
      {
        if Includes(e.name, SECURE_NAME_PATTERNS[k]) || Includes(e.id, SECURE_NAME_PATTERNS[k]) {
          return true;
        }
      }
      secure := false;
    }

    method SetSecure(value: bool)
      modifies this`currentlySecure, this`sent
      ensures View() == WithFlag(old(View()), value)
    {
      if value == currentlySecure {
        return;
      }
      currentlySecure := value;
      sent := sent + [value];
    }

    method HandleFocusIn(target: Option<Id>)
      modifies this
      ensures View() == OnFocusIn(old(View()), target)
    {
      focusSeq := focusSeq + 1;
      var secure := IsSecureField(target);
      if secure {
        SetSecure(true);
      } else if currentlySecure {
        SetSecure(false);
      }
    }

    method HandleFocusOut(related: Option<Id>)
      modifies this
      ensures View() == OnFocusOut(old(View()), related)
    {
      if !currentlySecure {
        return;
      }
      var secure := IsSecureField(related);
      if secure {
        return;
      }
      focusSeq := focusSeq + 1;
      callbacks := callbacks + {focusSeq};
    }

    /** A deferred callback comes with the number it was made with. */
    method Callback(number: nat, active: Option<Id>)
      modifies this
      ensures View() == OnCallback(old(View()), number, active)
    {
      callbacks := callbacks - {number};
      if number != focusSeq {
        return;
      }
      var secure := IsSecureField(active);
      if !secure {
        SetSecure(false);
      }
    }
  }
}
