/**
 The shell log's handover (`take_commands`): shells append to a log file, each
 pass of the daemon ingests what the pass before moved aside and moves the log
 aside.  A shell opens the log and writes in two steps, and its handle follows
 the file through a rename, so an append may be in flight across a pass.
 */
module ShellLog {
  import opened Common

  /** One line of the log; `parsed` is None for a malformed one. */
  datatype Line = Line(text: string, parsed: Option<string>)

  type Inode = nat

  /** Where a pass of the daemon is: not in one, the staged file read and not yet
      removed, the log not yet moved aside. */
  datatype Phase = Idle | HasRead | Clear

  /** The directory entries of the log and the staged file, the contents of every
      file ever created, where handles still to write point, and the daemon's place. */
  datatype World = World(
    log: Option<Inode>,
    staged: Option<Inode>,
    contents: map<Inode, seq<Line>>,
    handles: map<nat, Inode>,
    next: Inode,
    phase: Phase)

  /** What the file operations of a pass came to.  `readable`: the staged file is
      valid UTF-8 and could be read; the other two: it could be removed, the log renamed. */
  datatype Luck = Luck(readable: bool, removed: bool, renamed: bool)

  datatype Action =
    | Open(handle: nat)
    | Land(handle: nat, line: Line)
    | ReadStaged(readable: bool)
    | RemoveStaged(removed: bool)
    | RenameLog(renamed: bool)

  ghost predicate Valid(w: World) {
    && (forall i | i in w.contents :: i < w.next)
    && (w.log.Some? ==> w.log.value in w.contents)
    && (w.staged.Some? ==> w.staged.value in w.contents)
    && (w.log.Some? && w.staged.Some? ==> w.log.value != w.staged.value)
    && (forall h | h in w.handles :: w.handles[h] in w.contents)
    && (w.phase == HasRead ==> w.staged.Some?)
  }

  function LinesAt(w: World, entry: Option<Inode>): seq<Line> {
    if entry.Some? && entry.value in w.contents then w.contents[entry.value] else []
  }

  /** The file will still be read: it is the log, or staged and not read yet. */
  predicate ToBeRead(w: World, i: Inode) { w.log == Some(i) || (w.staged == Some(i) && w.phase != HasRead) }

  /** A shell opens the log for appending, creating it if need be. */
  function Opened(w: World, handle: nat): World {
    match w.log
    case Some(i) => w.(handles := w.handles[handle := i])
    case None =>
      w.(log := Some(w.next), contents := w.contents[w.next := []], handles := w.handles[handle := w.next], next := w.next + 1)
  }

  /** Its write lands in the file the handle points to, whatever became of it. */
  function Landed(w: World, handle: nat, line: Line): World
    requires handle in w.handles && w.handles[handle] in w.contents
  {
    var i := w.handles[handle];
    w.(contents := w.contents[i := w.contents[i] + [line]], handles := w.handles - {handle})
  }

  // The three steps of a pass, between which shells may open and write.

  function StagedRead(w: World, readable: bool): World {
    w.(phase := if w.staged.Some? && readable then HasRead else Clear)
  }

  function StagedRemoved(w: World, removed: bool): World {
    w.(phase := Clear, staged := if removed then None else w.staged)
  }

  /** The log is renamed over whatever is staged. */
  function LogRenamed(w: World, renamed: bool): World {
    if w.log.Some? && renamed then w.(phase := Idle, log := None, staged := w.log) else w.(phase := Idle)
  }

  /** The lines a pass returns. */
  function Read(w: World, readable: bool): seq<Line> {
    if readable then LinesAt(w, w.staged) else []
  }

  /** A pass nothing interrupts. */
  function Passed(w: World, luck: Luck): World {
    var read := StagedRead(w, luck.readable);
    LogRenamed(if read.phase == HasRead then StagedRemoved(read, luck.removed) else read, luck.renamed)
  }

  /** The commands of the lines, malformed and blank ones skipped. */
  function Commands(lines: seq<Line>): seq<string> {
    if lines == [] then [] else
      (match lines[0].parsed case None => [] case Some(c) => [c]) + Commands(lines[1..])
  }

  lemma CommandsFrom(lines: seq<Line>, k: nat)
    requires k <= |lines|
    ensures k == |lines| ==> Commands(lines[k..]) == []
    ensures k < |lines| && lines[k].parsed.Some? ==> Commands(lines[k..]) == [lines[k].parsed.value] + Commands(lines[k + 1..])
    ensures k < |lines| && lines[k].parsed.None? ==> Commands(lines[k..]) == Commands(lines[k + 1..])
  {
    if k < |lines| {
      assert lines[k..][1..] == lines[k + 1..];
    }
  }

  /** The commands stand in the order of their lines. */
  lemma {:induction false} CommandsInOrder(a: seq<Line>, b: seq<Line>)
    ensures Commands(a + b) == Commands(a) + Commands(b)
  {
    CommandsFrom(a, 0);
    CommandsFrom(a + b, 0);
    hide Commands;
    assert a[0..] == a && (a + b)[0..] == a + b;
    if a == [] {
      assert a + b == b;
    } else {
      assert (a + b)[1..] == a[1..] + b;
      CommandsInOrder(a[1..], b);
    }
  }

  method ParseLines(lines: seq<Line>) returns (entries: seq<string>)
    ensures entries == Commands(lines)
  {
    hide Commands;
    entries := [];
    assert lines[0..] == lines;
    for k := 0 to |lines|
      invariant entries + Commands(lines[k..]) == Commands(lines)
    {
      CommandsFrom(lines, k);
      if lines[k].parsed.Some? {
        entries := entries + [lines[k].parsed.value];
      }
    }
    CommandsFrom(lines, |lines|);
  }

  class ShellIngest {
    var world: World

    /** `take_commands`, when no shell writes during it. */
    method TakeCommands(luck: Luck) returns (entries: seq<string>, ghost read: seq<Line>)
      requires Valid(world) && world.phase == Idle
      modifies this
      ensures Valid(world) && world == Passed(old(world), luck)
      ensures read == Read(old(world), luck.readable) && entries == Commands(read)
    {
      entries, read := [], [];
      if world.staged.Some? {
        if luck.readable {
          var lines := LinesAt(world, world.staged);
          read := lines;
          entries := ParseLines(lines);
          if luck.removed {
            world := world.(staged := None);
          }
        }
      }
      if world.log.Some? {
        if luck.renamed {
          world := world.(log := None, staged := world.log);
        }
      }
    }
  }

  // ------------------------------------------------------------ one pass

  /** Everything still to be ingested. */
  ghost function Waiting(w: World): multiset<Line> {
    (if w.phase == HasRead then multiset{} else multiset(LinesAt(w, w.staged))) + multiset(LinesAt(w, w.log))
  }

  /** A pass loses nothing and repeats nothing if and only if (when there are staged
      lines at all) it either reads the staged file and gets rid of it, by removing
      it or by renaming the log over it, or does neither. */
  lemma PassConservesIff(w: World, luck: Luck)
    requires Valid(w) && w.phase == Idle
    ensures Waiting(w) == multiset(Read(w, luck.readable)) + Waiting(Passed(w, luck)) <==>
            LinesAt(w, w.staged) == [] || (luck.readable <==> (luck.readable && luck.removed) || (w.log.Some? && luck.renamed))
  {
    var staged, log := multiset(LinesAt(w, w.staged)), multiset(LinesAt(w, w.log));
    var after := Passed(w, luck);
    if LinesAt(w, w.staged) != [] {
      assert LinesAt(w, w.staged)[0] in staged;
      assert |staged| > 0;
      var gone := (luck.readable && luck.removed) || (w.log.Some? && luck.renamed);
      assert Waiting(after) == if gone then log else staged + log;
      if luck.readable && !gone {
        assert |staged + (staged + log)| == |staged + log| + |staged|;
      }
      if !luck.readable && gone {
        assert |multiset{} + log| < |staged + log|;
      }
    }
  }

  /** The two ways a pass goes wrong: a staged file that cannot be read is
      overwritten by the log, and one that was read but stays is read again. */
  lemma PassLosesOrRepeats(w: World, luck: Luck)
    requires Valid(w) && w.phase == Idle && LinesAt(w, w.staged) != []
    ensures !luck.readable && w.log.Some? && luck.renamed ==>
              multiset(Read(w, luck.readable)) + Waiting(Passed(w, luck)) + multiset(LinesAt(w, w.staged)) == Waiting(w)
    ensures luck.readable && !luck.removed && !(w.log.Some? && luck.renamed) ==>
              Passed(w, luck) == w && multiset(Read(w, luck.readable)) + Waiting(Passed(w, luck)) == Waiting(w) + multiset(LinesAt(w, w.staged))
  {
  }

  // ------------------------------------------------------------------ runs

  ghost predicate Applies(w: World, a: Action) {
    match a
    case Open(_) => true
    case Land(h, _) => h in w.handles && w.handles[h] in w.contents
    case ReadStaged(_) => w.phase == Idle
    case RemoveStaged(_) => w.phase == HasRead
    case RenameLog(_) => w.phase == Clear
  }

  /** The daemon's file operations succeed. */
  predicate Works(a: Action) {
    && (a.ReadStaged? ==> a.readable) && (a.RemoveStaged? ==> a.removed) && (a.RenameLog? ==> a.renamed)
  }

  ghost function After(w: World, a: Action): World
    requires Applies(w, a)
  {
    match a
    case Open(h) => Opened(w, h)
    case Land(h, line) => Landed(w, h, line)
    case ReadStaged(readable) => StagedRead(w, readable)
    case RemoveStaged(removed) => StagedRemoved(w, removed)
    case RenameLog(renamed) => LogRenamed(w, renamed)
  }

  ghost function Appended(a: Action): multiset<Line> { if a.Land? then multiset{a.line} else multiset{} }

  /** Lines that land in a file after it was read. */
  ghost function Stray(w: World, a: Action): multiset<Line>
    requires Applies(w, a)
  {
    if a.Land? && !ToBeRead(w, w.handles[a.handle]) then multiset{a.line} else multiset{}
  }

  ghost function ReadBy(w: World, a: Action): multiset<Line> {
    if a.ReadStaged? then multiset(Read(w, a.readable)) else multiset{}
  }

  /** What holds between the daemon's steps. */
  ghost predicate Inv(w: World) { Valid(w) && (w.phase == Clear ==> w.staged.None?) }

  lemma AfterIsValid(w: World, a: Action)
    requires Inv(w) && Applies(w, a) && Works(a)
    ensures Inv(After(w, a))
  {
  }

  lemma MultisetSnoc(s: seq<Line>, line: Line)
    ensures multiset(s + [line]) == multiset(s) + multiset{line}
  {
  }

  /** A write changes the lines of its own file only. */
  lemma LandedLines(w: World, h: nat, line: Line, entry: Option<Inode>)
    requires Valid(w) && Applies(w, Land(h, line)) && (entry.Some? ==> entry.value in w.contents)
    ensures LinesAt(Landed(w, h, line), entry) == LinesAt(w, entry) + if entry == Some(w.handles[h]) then [line] else []
  {
  }

  lemma LandConserves(w: World, h: nat, line: Line)
    requires Inv(w) && Applies(w, Land(h, line))
    ensures Waiting(w) + multiset{line} == Waiting(Landed(w, h, line)) + Stray(w, Land(h, line))
  {
    hide Landed, LinesAt, Valid;
    assert Valid(w);
    DistinctNames(w);
    LandedNames(w, h, line);
    LandedLines(w, h, line, w.log);
    LandedLines(w, h, line, w.staged);
    var staged, log := LinesAt(w, w.staged), LinesAt(w, w.log);
    StrayIs(w, h, line);
    hide Stray;
    var onStaged, onLog := w.staged == Some(w.handles[h]), w.log == Some(w.handles[h]);
    OneOfTwo(staged, log, line, onStaged, onLog, w.phase == HasRead);
  }

  lemma StrayIs(w: World, h: nat, line: Line)
    requires Applies(w, Land(h, line))
    ensures
      var onStaged, onLog := w.staged == Some(w.handles[h]), w.log == Some(w.handles[h]);
      Stray(w, Land(h, line)) == if onLog || (onStaged && w.phase != HasRead) then multiset{} else multiset{line}
  {
  }

  /** A line at the end of one of two files, or of neither; the first may count or not. */
  lemma OneOfTwo(staged: seq<Line>, log: seq<Line>, line: Line, onStaged: bool, onLog: bool, read: bool)
    requires !(onStaged && onLog)
    ensures
      var staged', log' := staged + if onStaged then [line] else [], log + if onLog then [line] else [];
      (if read then multiset{} else multiset(staged)) + multiset(log) + multiset{line} ==
        (if read then multiset{} else multiset(staged')) + multiset(log')
        + if onLog || (onStaged && !read) then multiset{} else multiset{line}
  {
    assert staged + [] == staged && log + [] == log;
    MultisetSnoc(log, line);
    MultisetSnoc(staged, line);
  }

  lemma DistinctNames(w: World)
    requires Valid(w)
    ensures w.log.Some? && w.staged.Some? ==> w.log.value != w.staged.value
    ensures w.log.Some? ==> w.log.value in w.contents
    ensures w.staged.Some? ==> w.staged.value in w.contents
    ensures w.phase == HasRead ==> w.staged.Some?
  {
  }

  lemma LandedNames(w: World, h: nat, line: Line)
    requires Applies(w, Land(h, line))
    ensures
      var after := Landed(w, h, line);
      after.log == w.log && after.staged == w.staged && after.phase == w.phase
  {
  }

  lemma OpenConserves(w: World, h: nat)
    requires Inv(w)
    ensures Waiting(Opened(w, h)) == Waiting(w)
  {
    assert LinesAt(Opened(w, h), Opened(w, h).log) == LinesAt(w, w.log);
    assert LinesAt(Opened(w, h), w.staged) == LinesAt(w, w.staged);
  }

  /** Each action accounts for every line, when the file operations work. */
  lemma ActionConserves(w: World, a: Action)
    requires Inv(w) && Applies(w, a) && Works(a)
    ensures Waiting(w) + Appended(a) == ReadBy(w, a) + Waiting(After(w, a)) + Stray(w, a)
  {
    hide Landed, LinesAt;
    match a {
      case Open(h) => OpenConserves(w, h);
      case Land(h, line) => LandConserves(w, h, line);
      case ReadStaged(_) => ReadConserves(w);
      case RemoveStaged(_) => RemoveConserves(w);
      case RenameLog(_) => RenameConserves(w);
    }
  }

  lemma ReadConserves(w: World)
    requires Inv(w) && w.phase == Idle
    ensures Waiting(w) == multiset(Read(w, true)) + Waiting(StagedRead(w, true))
  {
  }

  lemma RemoveConserves(w: World)
    requires Inv(w) && w.phase == HasRead
    ensures Waiting(w) == Waiting(StagedRemoved(w, true))
  {
  }

  lemma RenameConserves(w: World)
    requires Inv(w) && w.phase == Clear
    ensures Waiting(w) == Waiting(LogRenamed(w, true))
  {
  }

  ghost predicate IsRun(worlds: seq<World>, actions: seq<Action>) {
    && |worlds| == |actions| + 1
    && worlds[0] == World(None, None, map[], map[], 0, Idle)
    && forall k | 0 <= k < |actions| :: Applies(worlds[k], actions[k]) && worlds[k + 1] == After(worlds[k], actions[k])
  }

  ghost function AllAppended(actions: seq<Action>, k: nat): multiset<Line>
    requires k <= |actions|
  {
    if k == 0 then multiset{} else AllAppended(actions, k - 1) + Appended(actions[k - 1])
  }

  ghost function AllRead(worlds: seq<World>, actions: seq<Action>, k: nat): multiset<Line>
    requires IsRun(worlds, actions) && k <= |actions|
  {
    if k == 0 then multiset{} else AllRead(worlds, actions, k - 1) + ReadBy(worlds[k - 1], actions[k - 1])
  }

  ghost function AllStray(worlds: seq<World>, actions: seq<Action>, k: nat): multiset<Line>
    requires IsRun(worlds, actions) && k <= |actions|
  {
    if k == 0 then multiset{} else AllStray(worlds, actions, k - 1) + Stray(worlds[k - 1], actions[k - 1])
  }

  /** Over every run with working file operations, what was appended is what was
      read, plus what is staged or in the log, plus what landed in a file after a
      pass had read it. */
  lemma {:induction false} Handover(worlds: seq<World>, actions: seq<Action>, k: nat)
    requires IsRun(worlds, actions) && k <= |actions|
    requires forall j | 0 <= j < k :: Works(actions[j])
    ensures Inv(worlds[k])
    ensures AllAppended(actions, k) == AllRead(worlds, actions, k) + Waiting(worlds[k]) + AllStray(worlds, actions, k)
  {
    if k > 0 {
      Handover(worlds, actions, k - 1);
      var w, a := worlds[k - 1], actions[k - 1];
      assert worlds[k - 1 + 1] == After(w, a);
      AfterIsValid(w, a);
      ActionConserves(w, a);
      Regroup(AllAppended(actions, k - 1), AllRead(worlds, actions, k - 1), Waiting(w), AllStray(worlds, actions, k - 1),
              Appended(a), ReadBy(w, a), Waiting(worlds[k]), Stray(w, a));
    }
  }

  lemma Regroup(all: multiset<Line>, read: multiset<Line>, waiting: multiset<Line>, stray: multiset<Line>,
                appended: multiset<Line>, readNow: multiset<Line>, waitingNow: multiset<Line>, strayNow: multiset<Line>)
    requires all == read + waiting + stray && waiting + appended == readNow + waitingNow + strayNow
    ensures all + appended == (read + readNow) + waitingNow + (stray + strayNow)
  {
    assert all + appended == read + stray + (waiting + appended);
    assert read + stray + (readNow + waitingNow + strayNow) == (read + readNow) + waitingNow + (stray + strayNow);
  }

  /** Every append lands before the read of the pass after its file was moved aside. */
  ghost predicate LandsInTime(worlds: seq<World>, actions: seq<Action>, k: nat)
    requires IsRun(worlds, actions) && k <= |actions|
  {
    forall j | 0 <= j < k && actions[j].Land? :: ToBeRead(worlds[j], worlds[j].handles[actions[j].handle])
  }

  /** The handover is exactly once if and only if every append landed in time. */
  lemma {:induction false} ExactlyOnceIff(worlds: seq<World>, actions: seq<Action>, k: nat)
    requires IsRun(worlds, actions) && k <= |actions|
    requires forall j | 0 <= j < k :: Works(actions[j])
    ensures AllAppended(actions, k) == AllRead(worlds, actions, k) + Waiting(worlds[k]) <==> LandsInTime(worlds, actions, k)
  {
    Handover(worlds, actions, k);
    StrayIff(worlds, actions, k);
    var kept := AllRead(worlds, actions, k) + Waiting(worlds[k]);
    assert |kept + AllStray(worlds, actions, k)| == |kept| + |AllStray(worlds, actions, k)|;
  }

  lemma {:induction false} StrayIff(worlds: seq<World>, actions: seq<Action>, k: nat)
    requires IsRun(worlds, actions) && k <= |actions|
    ensures AllStray(worlds, actions, k) == multiset{} <==> LandsInTime(worlds, actions, k)
  {
    if k > 0 {
      StrayIff(worlds, actions, k - 1);
      var before, now := AllStray(worlds, actions, k - 1), Stray(worlds[k - 1], actions[k - 1]);
      assert |before + now| == |before| + |now|;
    }
  }

  /** A line appended once is read by at most one pass, and not again once read. */
  lemma NoLineTwice(worlds: seq<World>, actions: seq<Action>, k: nat, line: Line)
    requires IsRun(worlds, actions) && k <= |actions|
    requires forall j | 0 <= j < k :: Works(actions[j])
    requires AllAppended(actions, k)[line] <= 1
    ensures AllRead(worlds, actions, k)[line] <= 1
    ensures AllRead(worlds, actions, k)[line] == 1 ==> line !in Waiting(worlds[k])
  {
    Handover(worlds, actions, k);
  }
}
