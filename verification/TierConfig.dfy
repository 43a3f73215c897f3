/**
 The `[vlm]` edit of a config text (`vlm_block`, `apply_vlm_block`): the managed
 keys of the section are replaced by a tier's, every other line is kept.
 */
module TierConfig {
  import opened Common

  datatype Tier = Tier(id: string, annotationModel: string, sopModel: string)

  /** White space as `str::trim` takes it. */
  predicate IsSpace(c: char) {
    var u := c as int;
    || 9 <= u <= 13 || u == 0x20 || u == 0x85 || u == 0xA0 || u == 0x1680 || 0x2000 <= u <= 0x200A
    || u == 0x2028 || u == 0x2029 || u == 0x202F || u == 0x205F || u == 0x3000
  }

  /** The code points that are white space. */
  lemma SpacesAre(c: char)
    ensures IsSpace(c) <==>
            c in "\t\n\U{B}\U{C}\r \U{85}\U{A0}\U{1680}\U{2000}\U{2001}\U{2002}\U{2003}\U{2004}\U{2005}\U{2006}\U{2007}\U{2008}\U{2009}\U{200A}\U{2028}\U{2029}\U{202F}\U{205F}\U{3000}"
  {
  }

  function TrimStart(s: string): string { if s != [] && IsSpace(s[0]) then TrimStart(s[1..]) else s }

  function TrimEnd(s: string): string { if s != [] && IsSpace(s[|s| - 1]) then TrimEnd(s[..|s| - 1]) else s }

  function Trim(s: string): string { TrimEnd(TrimStart(s)) }

  // ------------------------------------------------------------------- lines

  /** `split_inclusive('\n')`. */
  function Lines(text: string): seq<string> {
    if text == [] then [] else WithFirst(text[0], Lines(text[1..]))
  }

  /** The lines of a character and then a text, given the lines of the text. */
  function WithFirst(c: char, rest: seq<string>): seq<string> {
    if c == '\n' || rest == [] then [[c]] + rest else [[c] + rest[0]] + rest[1..]
  }

  function Concat(lines: seq<string>): string {
    if lines == [] then [] else lines[0] + Concat(lines[1..])
  }

  /** A line with its line break. */
  predicate Terminated(line: string) { line != [] && line[|line| - 1] == '\n' && '\n' !in line[..|line| - 1] }

  /** Lines as a split gives them: each has its break, the last may lack it. */
  predicate WellSplit(lines: seq<string>) {
    forall i | 0 <= i < |lines| ::
      Terminated(lines[i]) || (i == |lines| - 1 && lines[i] != [] && '\n' !in lines[i])
  }

  predicate AllTerminated(lines: seq<string>) { forall i | 0 <= i < |lines| :: Terminated(lines[i]) }

  lemma BreakAlone()
    ensures Terminated("\n")
  {
  }

  lemma ShortLineFirst(c: char, rest: seq<string>)
    requires WellSplit(rest) && (c == '\n' || rest == [])
    ensures WellSplit([[c]] + rest)
  {
    hide Terminated;
    BreakAlone();
    assert c == '\n' ==> [c] == "\n";
  }

  lemma LongerLineFirst(c: char, rest: seq<string>)
    requires WellSplit(rest) && rest != [] && c != '\n'
    ensures WellSplit([[c] + rest[0]] + rest[1..])
  {
    var longer := [c] + rest[0];
    assert Terminated(rest[0]) ==> Terminated(longer) by {
      assert longer[..|longer| - 1] == [c] + rest[0][..|rest[0]| - 1];
    }
    hide Terminated;
  }

  lemma NoLines()
    ensures WellSplit([]) && Concat([]) == []
  {
  }

  lemma ConcatFirst(line: string, rest: seq<string>)
    ensures Concat([line] + rest) == line + Concat(rest)
  {
    assert ([line] + rest)[1..] == rest;
  }

  lemma WithFirstFacts(c: char, rest: seq<string>)
    requires WellSplit(rest)
    ensures WithFirst(c, rest) != [] && WellSplit(WithFirst(c, rest))
    ensures Concat(WithFirst(c, rest)) == [c] + Concat(rest)
  {
    hide WellSplit, Concat;
    if c == '\n' || rest == [] {
      ShortLineFirst(c, rest);
      ConcatFirst([c], rest);
    } else {
      LongerLineFirst(c, rest);
      ConcatFirst([c] + rest[0], rest[1..]);
      ConcatFirst(rest[0], rest[1..]);
      assert [rest[0]] + rest[1..] == rest;
    }
  }

  lemma {:induction false} LinesOfText(text: string)
    ensures WellSplit(Lines(text)) && Concat(Lines(text)) == text
    ensures Lines(text) == [] <==> text == []
  {
    hide WellSplit, Concat, WithFirst;
    if text != [] {
      LinesOfText(text[1..]);
      WithFirstFacts(text[0], Lines(text[1..]));
    } else {
      NoLines();
    }
  }

  lemma {:induction false} LinesOfOne(line: string, rest: string)
    requires Terminated(line) || (rest == [] && line != [] && '\n' !in line)
    ensures Lines(line + rest) == [line] + Lines(rest)
    decreases |line|
  {
    var text := line + rest;
    if |line| == 1 {
      assert text[1..] == rest;
      assert line == [text[0]];
    } else {
      assert text[1..] == line[1..] + rest;
      assert Terminated(line) ==> Terminated(line[1..]) by {
        assert line[1..][..|line| - 2] == line[1..|line| - 1];
      }
      LinesOfOne(line[1..], rest);
      assert text[0] != '\n';
      assert [text[0]] + line[1..] == line;
    }
  }

  lemma {:induction false} LinesOfConcat(lines: seq<string>)
    requires WellSplit(lines)
    ensures Lines(Concat(lines)) == lines
  {
    if lines != [] {
      LinesOfConcat(lines[1..]);
      LinesOfOne(lines[0], Concat(lines[1..]));
    }
  }

  lemma {:induction false} ConcatConcat(a: seq<string>, b: seq<string>)
    ensures Concat(a + b) == Concat(a) + Concat(b)
  {
    if a == [] { assert a + b == b; } else {
      assert (a + b)[1..] == a[1..] + b;
      ConcatConcat(a[1..], b);
    }
  }

  // ------------------------------------------------------------- the section

  const MANAGED_KEYS: seq<string> := ["mode", "tier", "annotation_model", "sop_model"]

  /** The key before the first `=`, trimmed; None without an `=`. */
  function KeyOf(line: string): Option<string> {
    var t := Trim(line);
    if '=' in t then Some(Trim(UpTo(t, '='))) else None
  }

  predicate IsHeader(line: string) { Trim(line) == "[vlm]" }

  /** A line that starts a section (or any line that begins with a bracket). */
  predicate Opens(line: string) { var t := Trim(line); t != [] && t[0] == '[' }

  predicate Managed(line: string) { KeyOf(line).Some? && KeyOf(line).value in MANAGED_KEYS }

  function Setting(key: string, value: string): string { key + " = \"" + value + "\"\n" }

  function BlockLines(tier: Tier): seq<string> {
    ["[vlm]\n", Setting("mode", "local"), Setting("tier", tier.id),
     Setting("annotation_model", tier.annotationModel), Setting("sop_model", tier.sopModel)]
  }

  /** `vlm_block`. */
  function VlmBlock(tier: Tier): string {
    "[vlm]\nmode = \"local\"\ntier = \"" + tier.id + "\"\nannotation_model = \"" + tier.annotationModel
    + "\"\nsop_model = \"" + tier.sopModel + "\"\n"
  }

  predicate NoBreaks(tier: Tier) { '\n' !in tier.id && '\n' !in tier.annotationModel && '\n' !in tier.sopModel }

  /** The index of the section's header, None without one. */
  function Header(lines: seq<string>): Option<nat> {
    if lines == [] then None
    else if IsHeader(lines[0]) then Some(0)
    else match Header(lines[1..]) case None => None case Some(k) => Some(k + 1)
  }

  /** The lines after the header without the managed ones, up to the next section. */
  function Kept(lines: seq<string>, inSection: bool): seq<string> {
    if lines == [] then [] else
      var inside := inSection && !Opens(lines[0]);
      (if inside && Managed(lines[0]) then [] else [lines[0]]) + Kept(lines[1..], inside)
  }

  /** The edit, on lines. */
  function Edited(lines: seq<string>, tier: Tier): seq<string> {
    match Header(lines)
    case Some(h) => if h < |lines| then lines[..h] + BlockLines(tier) + Kept(lines[h + 1..], true) else []
    case None => WithBreak(lines) + ["\n"] + BlockLines(tier)
  }

  /** The lines, the last one ended if it was not. */
  function WithBreak(lines: seq<string>): seq<string> {
    var n := |lines| - 1;
    if lines != [] && (lines[n] == [] || lines[n][|lines[n]| - 1] != '\n') then lines[n := lines[n] + "\n"] else lines
  }

  /** `apply_vlm_block`. */
  function Applied(config: string, tier: Tier): string { Concat(Edited(Lines(config), tier)) }

  lemma {:induction false} HeaderFacts(lines: seq<string>)
    ensures
      match Header(lines)
      case None => forall i | 0 <= i < |lines| :: !IsHeader(lines[i])
      case Some(h) => h < |lines| && IsHeader(lines[h]) && forall i | 0 <= i < h :: !IsHeader(lines[i])
  {
    if lines != [] { HeaderFacts(lines[1..]); }
  }

  lemma {:induction false} HeaderAt(lines: seq<string>, h: nat)
    requires h < |lines| && IsHeader(lines[h]) && forall i | 0 <= i < h :: !IsHeader(lines[i])
    ensures Header(lines) == Some(h)
  {
    if h > 0 {
      HeaderAt(lines[1..], h - 1);
    }
  }

  // ------------------------------------------------- the lines of the block

  lemma {:induction false} UpToKey(key: string, rest: string)
    requires '=' !in key
    ensures UpTo(key + "=" + rest, '=') == key
  {
    if key == [] {
      assert key + "=" + rest == "=" + rest;
    } else {
      assert (key + "=" + rest)[1..] == key[1..] + "=" + rest;
      UpToKey(key[1..], rest);
    }
  }

  /** Trimming white space put after a text that has none at its ends. */
  lemma TrimPadded(s: string, pad: char)
    requires s != [] && !IsSpace(s[0]) && !IsSpace(s[|s| - 1]) && IsSpace(pad)
    ensures Trim(s + [pad]) == s && Trim(s) == s
  {
    assert (s + [pad])[..|s|] == s;
    assert TrimStart(s + [pad]) == s + [pad];
    assert TrimEnd(s + [pad]) == TrimEnd(s);
  }

  lemma KeyedLine(line: string, body: string, key: string, after: string)
    requires line == body + ['\n'] && body == key + [' '] + "=" + after
    requires key != [] && '=' !in key && key[0] != '[' && !IsSpace(key[0]) && !IsSpace(key[|key| - 1])
    requires after != [] && !IsSpace(after[|after| - 1])
    ensures KeyOf(line) == Some(key) && !Opens(line) && !IsHeader(line)
  {
    hide TrimStart, TrimEnd, Trim, UpTo;
    assert body[0] == key[0] && body[|body| - 1] == after[|after| - 1] && body[|key| + 1] == '=';
    TrimPadded(body, '\n');
    TrimPadded(key, ' ');
    UpToKey(key + [' '], after);
  }

  lemma SettingLine(key: string, value: string)
    requires key in MANAGED_KEYS && '\n' !in value
    ensures Terminated(Setting(key, value)) && Managed(Setting(key, value))
    ensures KeyOf(Setting(key, value)) == Some(key)
    ensures !Opens(Setting(key, value)) && !IsHeader(Setting(key, value))
  {
    hide KeyOf, Opens, IsHeader;
    var line, after := Setting(key, value), " \"" + value + "\"";
    var body := key + [' '] + "=" + after;
    assert line == body + ['\n'];
    assert '=' !in key && key[0] != '[' && !IsSpace(key[0]) && !IsSpace(key[|key| - 1]) && '\n' !in key;
    KeyedLine(line, body, key, after);
    assert line[..|line| - 1] == body;
  }

  lemma BlockFacts(tier: Tier)
    requires NoBreaks(tier)
    ensures AllTerminated(BlockLines(tier)) && IsHeader(BlockLines(tier)[0])
    ensures |BlockLines(tier)| == 5
    ensures forall i | 1 <= i < 5 :: KeyOf(BlockLines(tier)[i]) == Some(MANAGED_KEYS[i - 1])
    ensures forall i | 1 <= i < 5 :: Managed(BlockLines(tier)[i]) && !Opens(BlockLines(tier)[i])
  {
    hide KeyOf, Opens, Managed, Setting;
    SettingLine("mode", "local");
    SettingLine("tier", tier.id);
    SettingLine("annotation_model", tier.annotationModel);
    SettingLine("sop_model", tier.sopModel);
    HeaderLine();
  }

  lemma HeaderLine()
    ensures IsHeader("[vlm]\n") && Terminated("[vlm]\n")
  {
    TrimPadded("[vlm]", '\n');
    assert "[vlm]\n" == "[vlm]" + ['\n'];
  }

  // ------------------------------------------------------------ kept lines

  lemma {:induction false} KeptTwice(lines: seq<string>, inSection: bool)
    ensures Kept(Kept(lines, inSection), inSection) == Kept(lines, inSection)
  {
    if lines != [] {
      var inside := inSection && !Opens(lines[0]);
      KeptTwice(lines[1..], inside);
      if !(inside && Managed(lines[0])) {
        assert Kept(lines, inSection)[1..] == Kept(lines[1..], inside);
      } else {
        assert Kept(lines, inSection) == Kept(lines[1..], inside);
      }
    }
  }

  lemma {:induction false} KeptDropsSettings(settings: seq<string>, rest: seq<string>)
    requires forall i | 0 <= i < |settings| :: Managed(settings[i]) && !Opens(settings[i])
    ensures Kept(settings + rest, true) == Kept(rest, true)
  {
    hide Managed, Opens;
    if settings == [] { assert settings + rest == rest; } else {
      assert (settings + rest)[1..] == settings[1..] + rest;
      KeptDropsSettings(settings[1..], rest);
    }
  }

  lemma {:induction false} KeptWellSplit(lines: seq<string>, inSection: bool)
    requires WellSplit(lines)
    ensures WellSplit(Kept(lines, inSection))
    ensures AllTerminated(lines) ==> AllTerminated(Kept(lines, inSection))
  {
    hide Managed, Opens, Terminated;
    if lines != [] {
      assert forall i | 0 <= i < |lines| - 1 :: lines[1..][i] == lines[i + 1];
      KeptWellSplit(lines[1..], inSection && !Opens(lines[0]));
    }
  }

  /** The lines up to the first that opens a section. */
  function SectionEnd(lines: seq<string>): (n: nat)
    ensures n <= |lines| && (forall i | 0 <= i < n :: !Opens(lines[i])) && (n < |lines| ==> Opens(lines[n]))
  {
    if lines == [] || Opens(lines[0]) then 0 else 1 + SectionEnd(lines[1..])
  }

  function Unmanaged(lines: seq<string>): (kept: seq<string>)
    ensures forall l | l in kept :: l in lines && !Managed(l)
  {
    if lines == [] then [] else (if Managed(lines[0]) then [] else [lines[0]]) + Unmanaged(lines[1..])
  }

  lemma {:induction false} KeptOutside(lines: seq<string>)
    ensures Kept(lines, false) == lines
  {
    if lines != [] { KeptOutside(lines[1..]); }
  }

  /** What is kept after the header: the section's other lines, and everything from
      the next section on, managed names or not. */
  lemma {:induction false} KeptLines(lines: seq<string>)
    ensures Kept(lines, true) == Unmanaged(lines[..SectionEnd(lines)]) + lines[SectionEnd(lines)..]
  {
    hide Managed, Opens;
    if lines == [] {
    } else if Opens(lines[0]) {
      KeptOutside(lines[1..]);
    } else {
      KeptLines(lines[1..]);
      var n := SectionEnd(lines[1..]);
      assert lines[..n + 1][1..] == lines[1..][..n];
    }
  }

  // ----------------------------------------------------- the edit, on lines

  lemma {:induction false} TrimWithBreak(s: string)
    ensures Trim(s + "\n") == Trim(s)
  {
    if s == [] {
      assert s + "\n" == "\n" && TrimStart("\n") == TrimStart("\n"[1..]) == [];
    } else if IsSpace(s[0]) {
      assert (s + "\n")[1..] == s[1..] + "\n";
      TrimWithBreak(s[1..]);
    } else {
      assert (s + "\n")[..|s|] == s;
      assert TrimStart(s + "\n") == s + "\n";
    }
  }

  /** A line break put after a last line: an ended line, a header only if it was one. */
  lemma EndedLine(line: string)
    requires line != [] && '\n' !in line
    ensures Terminated(line + "\n") && (IsHeader(line + "\n") <==> IsHeader(line))
  {
    hide TrimStart, TrimEnd, Trim;
    TrimWithBreak(line);
    assert (line + "\n")[..|line|] == line;
  }

  lemma WellSplitConcat(a: seq<string>, b: seq<string>)
    requires AllTerminated(a) && WellSplit(b)
    ensures WellSplit(a + b) && (AllTerminated(b) ==> AllTerminated(a + b))
  {
    hide Terminated;
  }

  lemma WellSplitParts(lines: seq<string>, h: nat)
    requires WellSplit(lines) && h < |lines|
    ensures AllTerminated(lines[..h]) && WellSplit(lines[h + 1..])
  {
    hide Terminated;
    var rest := lines[h + 1..];
    forall i | 0 <= i < |rest|
      ensures Terminated(rest[i]) || (i == |rest| - 1 && rest[i] != [] && '\n' !in rest[i])
    {
      assert rest[i] == lines[h + 1 + i];
    }
  }

  function Ended(text: string): string { if text != [] && text[|text| - 1] != '\n' then text + "\n" else text }

  /** The last line with its break put on if it has none. */
  lemma LastEnded(lines: seq<string>) returns (last: string)
    requires WellSplit(lines) && lines != []
    ensures WithBreak(lines) == lines[..|lines| - 1] + [last]
    ensures lines[|lines| - 1] != [] && last == Ended(lines[|lines| - 1])
    ensures Terminated(last) && (IsHeader(last) <==> IsHeader(lines[|lines| - 1]))
  {
    hide IsHeader;
    last := lines[|lines| - 1];
    if last[|last| - 1] != '\n' {
      EndedLine(last);
      last := last + "\n";
    }
  }

  lemma WithBreakFacts(lines: seq<string>)
    requires WellSplit(lines) && Header(lines) == None
    ensures AllTerminated(WithBreak(lines)) && forall i | 0 <= i < |lines| :: !IsHeader(WithBreak(lines)[i])
  {
    hide IsHeader, Header, WithBreak, WellSplit, Terminated;
    HeaderFacts(lines);
    if lines == [] {
      assert WithBreak([]) == [] by { WithBreakLength([]); }
    } else {
      var last := LastEnded(lines);
      WellSplitParts(lines, |lines| - 1);
    }
  }

  /** A block put after ended lines without a header: the split and the header. */
  lemma BlockPlaced(before: seq<string>, tier: Tier, after: seq<string>)
    requires AllTerminated(before) && WellSplit(after) && NoBreaks(tier)
    requires forall i | 0 <= i < |before| :: !IsHeader(before[i])
    ensures WellSplit(before + BlockLines(tier) + after)
    ensures Header(before + BlockLines(tier) + after) == Some(|before|)
  {
    hide Terminated, IsHeader, BlockLines, NoBreaks, WellSplit, AllTerminated, Header, Managed, Opens, KeyOf;
    BlockFacts(tier);
    EndedIsSplit(BlockLines(tier));
    WellSplitConcat(before, BlockLines(tier));
    WellSplitConcat(before + BlockLines(tier), after);
    HeaderAt(before + BlockLines(tier) + after, |before|);
  }

  lemma EndedIsSplit(lines: seq<string>)
    requires AllTerminated(lines)
    ensures WellSplit(lines)
  {
    hide Terminated;
  }

  lemma EditedWithSection(lines: seq<string>, h: nat, tier: Tier)
    requires WellSplit(lines) && Header(lines) == Some(h) && NoBreaks(tier)
    ensures h < |lines| && WellSplit(Edited(lines, tier)) && Header(Edited(lines, tier)) == Some(h)
  {
    hide IsHeader, Kept, BlockLines, NoBreaks, AllTerminated, WellSplit, Header;
    HeaderFacts(lines);
    WellSplitParts(lines, h);
    KeptWellSplit(lines[h + 1..], true);
    BlockPlaced(lines[..h], tier, Kept(lines[h + 1..], true));
  }

  lemma EditedWithoutSection(lines: seq<string>, tier: Tier)
    requires WellSplit(lines) && Header(lines) == None && NoBreaks(tier)
    ensures WellSplit(Edited(lines, tier)) && Header(Edited(lines, tier)) == Some(|lines| + 1)
  {
    hide IsHeader, BlockLines, NoBreaks, WithBreak, Header, WellSplit, AllTerminated;
    var before := WithBreak(lines) + ["\n"];
    WithBreakFacts(lines);
    WithBreakLength(lines);
    BlankLine();
    OneLineEnded("\n");
    WellSplitConcat(WithBreak(lines), ["\n"]);
    NoLines();
    BlockPlaced(before, tier, []);
    assert before + BlockLines(tier) + [] == Edited(lines, tier);
  }

  lemma OneLineEnded(line: string)
    requires Terminated(line)
    ensures AllTerminated([line]) && WellSplit([line])
  {
  }

  lemma WithBreakLength(lines: seq<string>)
    ensures |WithBreak(lines)| == |lines|
  {
  }

  lemma BlankLine()
    ensures !IsHeader("\n") && Terminated("\n")
  {
    TrimWithBreak([]);
    assert [] + "\n" == "\n";
  }

  /** The second edit finds the first one's block and keeps the rest. */
  lemma SecondEdit(before: seq<string>, kept: seq<string>, first: Tier, second: Tier)
    requires NoBreaks(first) && Kept(kept, true) == kept
    requires Header(before + BlockLines(first) + kept) == Some(|before|)
    ensures Edited(before + BlockLines(first) + kept, second) == before + BlockLines(second) + kept
  {
    hide Managed, Opens, Kept, KeyOf, Setting, Header;
    var lines := before + BlockLines(first) + kept;
    BlockFacts(first);
    assert lines[..|before|] == before;
    var settings := BlockLines(first)[1..];
    assert lines[|before| + 1..] == settings + kept;
    KeptDropsSettings(settings, kept);
  }

  /** On lines, the last edit wins. */
  lemma EditedTwice(lines: seq<string>, first: Tier, second: Tier)
    requires WellSplit(lines) && NoBreaks(first)
    ensures WellSplit(Edited(lines, first))
    ensures Edited(Edited(lines, first), second) == Edited(lines, second)
  {
    hide Kept, Header, BlockLines, WithBreak, NoBreaks, WellSplit;
    KeptNothing();
    WithBreakLength(lines);
    match Header(lines) {
      case Some(h) =>
        EditedWithSection(lines, h, first);
        KeptTwice(lines[h + 1..], true);
        SecondEdit(lines[..h], Kept(lines[h + 1..], true), first, second);
      case None =>
        EditedWithoutSection(lines, first);
        var before := WithBreak(lines) + ["\n"];
        assert Edited(lines, first) == before + BlockLines(first) + [];
        SecondEdit(before, [], first, second);
        assert before + BlockLines(second) + [] == before + BlockLines(second);
    }
  }

  // --------------------------------------------------------------- theorems

  /** The edit is last-writer-wins on every config text, so it is idempotent. */
  lemma LastTierWins(config: string, first: Tier, second: Tier)
    requires NoBreaks(first)
    ensures Applied(Applied(config, first), second) == Applied(config, second)
  {
    LinesOfText(config);
    EditedTwice(Lines(config), first, second);
    LinesOfConcat(Edited(Lines(config), first));
  }

  /** The lines after an edit of a config with the section: those before the header,
      the block, the section's other lines, and all from the next section on. */
  lemma AppliedLines(config: string, tier: Tier, h: nat)
    requires NoBreaks(tier) && Header(Lines(config)) == Some(h)
    ensures h < |Lines(config)|
    ensures
      var rest := Lines(config)[h + 1..];
      Lines(Applied(config, tier)) ==
        Lines(config)[..h] + BlockLines(tier) + Unmanaged(rest[..SectionEnd(rest)]) + rest[SectionEnd(rest)..]
  {
    hide Lines, Header, BlockLines, NoBreaks, WellSplit, Kept, Unmanaged, Concat;
    LinesOfText(config);
    EditedWithSection(Lines(config), h, tier);
    LinesOfConcat(Edited(Lines(config), tier));
    KeptLines(Lines(config)[h + 1..]);
  }

  /** The edited lines: what is before the header, the block, what is kept after it. */
  lemma EditedParts(config: string, tier: Tier) returns (before: seq<string>, rest: seq<string>)
    requires NoBreaks(tier)
    ensures Lines(Applied(config, tier)) == before + BlockLines(tier) + Kept(rest, true)
    ensures Header(Lines(Applied(config, tier))) == Some(|before|)
  {
    hide BlockLines, NoBreaks, Kept, Lines, WithBreak, WellSplit, Header;
    var lines := Lines(config);
    LinesOfText(config);
    match Header(lines) {
      case Some(h) =>
        EditedWithSection(lines, h, tier);
        before, rest := lines[..h], lines[h + 1..];
      case None =>
        EditedWithoutSection(lines, tier);
        before, rest := WithBreak(lines) + ["\n"], [];
        WithBreakLength(lines);
        KeptNothing();
        assert before + BlockLines(tier) + [] == before + BlockLines(tier);
    }
    LinesOfConcat(Edited(lines, tier));
  }

  lemma KeptNothing()
    ensures Kept([], true) == []
  {
  }

  /** In the edited section each managed key is set once, to the tier's value. */
  lemma ManagedOnce(config: string, tier: Tier, h: nat, k: nat)
    requires NoBreaks(tier) && Header(Lines(Applied(config, tier))) == Some(h) && k < 4
    ensures h + 4 < |Lines(Applied(config, tier))|
    ensures SetsField(Lines(Applied(config, tier))[h + 1 + k], tier, k)
    ensures
      var section := Lines(Applied(config, tier))[h + 1..];
      forall i | 0 <= i < SectionEnd(section) ::
        KeyOf(section[i]) == Some(KeyName(k)) <==> i == k
  {
    hide Kept, Header, KeyOf, BlockLines, NoBreaks, Opens, Lines, Applied, SetsField, KeyName, SectionEnd;
    BlockSets(tier, k);
    KeyNameIs(k);
    var before, rest := EditedParts(config, tier);
    var kept := Kept(rest, true);
    Sectioned(before, BlockLines(tier), kept, k);
    SectionKeys(tier, rest, k);
  }

  /** Where the lines of the section stand after its block of five. */
  lemma Sectioned(before: seq<string>, block: seq<string>, kept: seq<string>, k: nat)
    requires |block| == 5 && k < 4
    ensures (before + block + kept)[|before| + 1..] == block[1..] + kept
    ensures (before + block + kept)[|before| + 1 + k] == block[k + 1]
  {
  }

  /** A managed key stands on its own line of the block only. */
  lemma SectionKeys(tier: Tier, rest: seq<string>, k: nat)
    requires NoBreaks(tier) && k < 4 && |BlockLines(tier)| == 5
    ensures
      var section := BlockLines(tier)[1..] + Kept(rest, true);
      forall i | 0 <= i < SectionEnd(section) :: KeyOf(section[i]) == Some(MANAGED_KEYS[k]) <==> i == k
  {
    hide Kept, KeyOf, BlockLines, NoBreaks, Opens, SectionEnd;
    BlockFacts(tier);
    var block, kept := BlockLines(tier)[1..], Kept(rest, true);
    var section := block + kept;
    forall i | 0 <= i < SectionEnd(section)
      ensures KeyOf(section[i]) == Some(MANAGED_KEYS[k]) <==> i == k
    {
      if i < 4 {
        assert section[i] == BlockLines(tier)[i + 1];
        DistinctKeys(i, k);
      } else {
        KeptUnmanaged(rest, kept, section, i);
        assert MANAGED_KEYS[k] in MANAGED_KEYS;
      }
    }
  }

  /** The line gives the tier's field for key `k` of the four. */
  predicate SetsField(line: string, tier: Tier, k: nat) {
    match k
    case 0 => line == "mode = \"local\"\n"
    case 1 => line == "tier = \"" + tier.id + "\"\n"
    case 2 => line == "annotation_model = \"" + tier.annotationModel + "\"\n"
    case 3 => line == "sop_model = \"" + tier.sopModel + "\"\n"
    case _ => false
  }

  function KeyName(k: nat): string {
    match k
    case 0 => "mode"
    case 1 => "tier"
    case 2 => "annotation_model"
    case _ => "sop_model"
  }

  lemma KeyNameIs(k: nat)
    requires k < 4
    ensures MANAGED_KEYS[k] == KeyName(k)
  {
  }

  /** Each field of the tier stands under its own key. */
  lemma BlockSets(tier: Tier, k: nat)
    requires k < 4
    ensures |BlockLines(tier)| == 5
    ensures SetsField(BlockLines(tier)[k + 1], tier, k)
  {
    hide Setting;
    ModeText();
    Settings(tier.id, tier.annotationModel, tier.sopModel);
    assert BlockLines(tier)[1] == Setting("mode", "local");
  }

  lemma DistinctKeys(i: nat, k: nat)
    requires i < 4 && k < 4
    ensures MANAGED_KEYS[i] == MANAGED_KEYS[k] <==> i == k
  {
  }

  /** A kept line of the edited section is not managed. */
  lemma KeptUnmanaged(rest: seq<string>, kept: seq<string>, section: seq<string>, i: nat)
    requires kept == Kept(rest, true) && |section| == 4 + |kept| && section[4..] == kept
    requires 4 <= i < SectionEnd(section)
    ensures !Managed(section[i])
  {
    hide Managed, Opens, Kept;
    KeptLines(rest);
    var end := SectionEnd(rest);
    var others := Unmanaged(rest[..end]);
    if end < |rest| {
      assert kept[|others|] == rest[end] && section[4..][|others|] == kept[|others|];
    }
    assert SectionEnd(section) <= 4 + |others|;
    assert section[i] == section[4..][i - 4] == kept[i - 4] == others[i - 4];
    assert others[i - 4] in others;
  }

  // ---------------------------------------------------------- the function

  lemma BlockIsItsLines(tier: Tier)
    ensures Concat(BlockLines(tier)) == VlmBlock(tier)
  {
    hide Concat;
    ConcatFive("[vlm]\n", Setting("mode", "local"), Setting("tier", tier.id),
               Setting("annotation_model", tier.annotationModel), Setting("sop_model", tier.sopModel));
    BlockText(tier.id, tier.annotationModel, tier.sopModel);
  }

  lemma BlockText(id: string, ann: string, sop: string)
    ensures
      "[vlm]\n" + Setting("mode", "local") + Setting("tier", id) + Setting("annotation_model", ann)
      + Setting("sop_model", sop)
      == "[vlm]\nmode = \"local\"\ntier = \"" + id + "\"\nannotation_model = \"" + ann
         + "\"\nsop_model = \"" + sop + "\"\n"
  {
    hide Setting;
    var end := "\"\n";
    var a, b, c, d := "[vlm]\n" + Setting("mode", "local"), "tier = \"", "annotation_model = \"", "sop_model = \"";
    ModeText();
    Settings(id, ann, sop);
    Associate(a, b, id, end, c, ann, d, sop);
    Joined();
  }

  lemma ModeText()
    ensures Setting("mode", "local") == "mode = \"local\"\n"
    ensures "[vlm]\n" + Setting("mode", "local") == "[vlm]\nmode = \"local\"\n"
  {
    assert Setting("mode", "local") == "mode = \"local\"\n";
  }

  lemma Settings(id: string, ann: string, sop: string)
    ensures Setting("tier", id) == "tier = \"" + id + "\"\n"
    ensures Setting("annotation_model", ann) == "annotation_model = \"" + ann + "\"\n"
    ensures Setting("sop_model", sop) == "sop_model = \"" + sop + "\"\n"
  {
    assert "tier" + " = \"" == "tier = \"";
    assert "annotation_model" + " = \"" == "annotation_model = \"";
    assert "sop_model" + " = \"" == "sop_model = \"";
  }

  lemma Joined()
    ensures "[vlm]\nmode = \"local\"\n" + "tier = \"" == "[vlm]\nmode = \"local\"\ntier = \""
    ensures "\"\n" + "annotation_model = \"" == "\"\nannotation_model = \""
    ensures "\"\n" + "sop_model = \"" == "\"\nsop_model = \""
  {
  }

  lemma Associate(a: string, b: string, id: string, end: string, c: string, ann: string, d: string, sop: string)
    ensures a + (b + id + end) + (c + ann + end) + (d + sop + end)
         == (a + b) + id + (end + c) + ann + (end + d) + sop + end
  {
    assert a + (b + id + end) == (a + b) + id + end;
    var x := (a + b) + id;
    assert (x + end) + (c + ann + end) == x + (end + c) + ann + end;
    var y := x + (end + c) + ann;
    assert (y + end) + (d + sop + end) == y + (end + d) + sop + end;
  }

  lemma ConcatFive(a: string, b: string, c: string, d: string, e: string)
    ensures Concat([a, b, c, d, e]) == a + b + c + d + e
  {
    assert [a, b, c, d, e] == [a, b] + [c, d] + [e];
    ConcatConcat([a, b] + [c, d], [e]);
    ConcatConcat([a, b], [c, d]);
    assert Concat([a, b]) == a + b && Concat([c, d]) == c + d && Concat([e]) == e by {
      assert [a, b][1..] == [b] && [b][1..] == [] && [c, d][1..] == [d] && [d][1..] == [] && [e][1..] == [];
    }
    assert (a + b) + (c + d) + e == a + b + c + d + e;
  }

  lemma KeptStep(lines: seq<string>, i: nat, inSection: bool)
    requires i < |lines|
    ensures
      var inside := inSection && !Opens(lines[i]);
      Concat(Kept(lines[i..], inSection)) ==
        (if inside && Managed(lines[i]) then [] else lines[i]) + Concat(Kept(lines[i + 1..], inside))
  {
    assert lines[i..][1..] == lines[i + 1..];
    var inside := inSection && !Opens(lines[i]);
    if !(inside && Managed(lines[i])) {
      assert ([lines[i]] + Kept(lines[i + 1..], inside))[1..] == Kept(lines[i + 1..], inside);
    } else {
      assert [] + Kept(lines[i + 1..], inside) == Kept(lines[i + 1..], inside);
    }
  }

  /** The loop over the lines after the header. */
  method KeepRest(lines: seq<string>) returns (out: string)
    ensures out == Concat(Kept(lines, true))
  {
    hide Kept, Concat, Opens, Managed;
    out := [];
    var inSection := true;
    assert lines[0..] == lines;
    for i := 0 to |lines|
      invariant out + Concat(Kept(lines[i..], inSection)) == Concat(Kept(lines, true))
    {
      KeptStep(lines, i, inSection);
      if Opens(lines[i]) {
        inSection := false;
      }
      if !(inSection && Managed(lines[i])) {
        out := out + lines[i];
      }
    }
    assert lines[|lines|..] == [];
    KeptEmpty(inSection);
  }

  lemma KeptEmpty(inSection: bool)
    ensures Concat(Kept([], inSection)) == []
  {
  }

  method ApplyVlmBlock(config: string, tier: Tier) returns (out: string)
    ensures out == Applied(config, tier)
  {
    hide Kept, Concat, Lines, VlmBlock, BlockLines, WithBreak, Header;
    var block := VlmBlock(tier);
    BlockIsItsLines(tier);
    var lines := Lines(config);
    HeaderFacts(lines);
    var header := Header(lines);
    if header.None? {
      out := config;
      if out != [] && out[|out| - 1] != '\n' {
        out := out + "\n";
      }
      AppendedBlock(config, lines, tier);
      out := out + "\n" + block;
      return;
    }
    var h := header.value;
    var rest := KeepRest(lines[h + 1..]);
    out := Concat(lines[..h]) + block + rest;
    ConcatConcat(lines[..h] + BlockLines(tier), Kept(lines[h + 1..], true));
    ConcatConcat(lines[..h], BlockLines(tier));
  }

  lemma AppendedBlock(config: string, lines: seq<string>, tier: Tier)
    requires lines == Lines(config) && Header(lines) == None
    ensures Applied(config, tier) ==
            Ended(config) + "\n" + VlmBlock(tier)
  {
    hide Lines, BlockLines, VlmBlock, WithBreak, Header, Concat, WellSplit;
    LinesOfText(config);
    BlockIsItsLines(tier);
    var ended := WithBreak(lines);
    ConcatConcat(ended + ["\n"], BlockLines(tier));
    ConcatConcat(ended, ["\n"]);
    ConcatOne("\n");
    EndedText(lines);
  }

  lemma ConcatOne(line: string)
    ensures Concat([line]) == line
  {
    assert [line][1..] == [];
  }

  /** Ending the last line of a text ends the text. */
  lemma EndedText(lines: seq<string>)
    requires WellSplit(lines)
    ensures Concat(WithBreak(lines)) == Ended(Concat(lines))
  {
    if lines != [] {
      hide WellSplit, Concat, WithBreak, Terminated;
      var n := |lines| - 1;
      var front, last := lines[..n], lines[n];
      assert lines == front + [last];
      var ended := LastEnded(lines);
      ConcatConcat(front, [last]);
      ConcatOne(last);
      ConcatConcat(front, [ended]);
      ConcatOne(ended);
    }
  }
}
