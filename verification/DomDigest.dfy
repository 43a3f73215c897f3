/**
 What a snapshot sends (`buildDigest`, `anchorChain`, `captureSnapshot`): the
 text digest of the tree, built with an explicit stack, and the size fit.
 Text is a sequence of UTF-16 code units, as in the browser.
 */
module DomDigest {
  import opened Common

  type Unit = u: nat | u < 0x1_0000

  type Text = seq<Unit>

  const MAX_DIGEST_CHARS := 4096
  const MAX_SNAPSHOT_CHARS := 7000
  const MAX_ANCHOR_CHAIN := 8
  const DIGEST_LINE_MAX := 120

  // -------------------------------------------------------------- one line

  predicate IsSpace(u: Unit) {
    || 9 <= u <= 13 || u == 0x20 || u == 0xA0 || u == 0x1680 || 0x2000 <= u <= 0x200A
    || u == 0x2028 || u == 0x2029 || u == 0x202F || u == 0x205F || u == 0x3000 || u == 0xFEFF
  }

  /** What `\s` matches. */
  lemma SpacesAre(u: Unit)
    ensures IsSpace(u) <==>
            u in [9, 10, 11, 12, 13, 32, 160, 5760, 8192, 8193, 8194, 8195, 8196, 8197, 8198, 8199, 8200, 8201, 8202,
                  8232, 8233, 8239, 8287, 12288, 65279]
  {
  }

  /** Each run of white space as one blank. */
  function Collapse(t: Text): (r: Text)
    ensures forall u | u in r :: !IsSpace(u) || u == 0x20
  {
    if t == [] then []
    else if !IsSpace(t[0]) then [t[0]] + Collapse(t[1..])
    else if |t| > 1 && IsSpace(t[1]) then Collapse(t[1..])
    else [0x20] + Collapse(t[1..])
  }

  function TrimStart(t: Text): (r: Text)
    ensures forall u | u in r :: u in t
  {
    if t != [] && IsSpace(t[0]) then TrimStart(t[1..]) else t
  }

  function TrimEnd(t: Text): (r: Text)
    ensures forall u | u in r :: u in t
  {
    if t != [] && IsSpace(t[|t| - 1]) then TrimEnd(t[..|t| - 1]) else t
  }

  function Cap(t: Text, max: nat): (r: Text)
    ensures r <= t && |r| <= max && (|t| <= max ==> r == t)
  {
    if |t| <= max then t else t[..max]
  }

  /** One line of at most `max` units: no white space in it but blanks. */
  function OneLine(t: Text, max: nat): (r: Text)
    ensures |r| <= max && forall u | u in r :: !IsSpace(u) || u == 0x20
  {
    Cap(TrimEnd(TrimStart(Collapse(t))), max)
  }

  /** The runs of what is no white space. */
  function Words(t: Text): (words: seq<Text>)
    ensures forall i | 0 <= i < |words| :: words[i] != [] && forall u | u in words[i] :: !IsSpace(u)
    ensures t != [] && !IsSpace(t[0]) ==> words != []
  {
    if t == [] then []
    else if IsSpace(t[0]) then Words(t[1..])
    else
      var rest := Words(t[1..]);
      if |t| > 1 && !IsSpace(t[1]) then [[t[0]] + rest[0]] + rest[1..] else [[t[0]]] + rest
  }

  /** Collapsed, a text is its words with one blank between, and one before and after
      them where it begins or ends in white space. */
  predicate Collapsed(t: Text) {
    Collapse(t) == LeadOf(t) + Join(Words(t), 0x20) + TrailOf(t)
  }

  function LeadOf(t: Text): Text { if t != [] && IsSpace(t[0]) && Words(t) != [] then [0x20] else [] }

  function TrailOf(t: Text): Text { if t != [] && IsSpace(t[|t| - 1]) then [0x20] else [] }

  lemma {:induction false} CollapseIs(t: Text)
    ensures Collapsed(t)
  {
    hide Collapsed;
    if t == [] {
      CollapsedNone();
    } else {
      CollapseIs(t[1..]);
      if IsSpace(t[0]) { BlankCollapsed(t); } else { WordCollapsed(t); }
    }
  }

  lemma CollapsedNone()
    ensures Collapsed([])
  {
    NothingJoined();
    WordsOfNone();
  }

  lemma BlankCollapsed(t: Text)
    requires t != [] && IsSpace(t[0]) && Collapsed(t[1..])
    ensures Collapsed(t)
  {
    hide IsSpace, Join, Words, Collapse;
    NothingJoined();
    WordsOfNone();
    WordsStep(t);
  }

  lemma WordCollapsed(t: Text)
    requires t != [] && !IsSpace(t[0]) && Collapsed(t[1..])
    ensures Collapsed(t)
  {
    hide IsSpace, Join, Words, Collapse, LeadOf, TrailOf;
    var rest := t[1..];
    WordsStep(t);
    EndsStep(t);
    if rest != [] && !IsSpace(rest[0]) {
      JoinFirst(t[0], Words(rest));
      UnitBefore(t[0], Join(Words(rest), 0x20), TrailOf(rest));
    } else {
      NothingJoined();
      JoinWord([t[0]], Words(rest));
      BlankBetween(t[0], LeadOf(rest), Join(Words(rest), 0x20), TrailOf(rest));
    }
  }

  /** How a text that begins with a word is led and trailed. */
  lemma EndsStep(t: Text)
    requires t != [] && !IsSpace(t[0])
    ensures LeadOf(t) == [] && TrailOf(t) == TrailOf(t[1..])
    ensures t[1..] == [] || !IsSpace(t[1]) ==> LeadOf(t[1..]) == []
    ensures t[1..] != [] && IsSpace(t[1]) ==> LeadOf(t[1..]) == if Words(t[1..]) == [] then [] else [0x20]
  {
    hide IsSpace, Words;
  }

  lemma UnitBefore(u: Unit, joined: Text, trail: Text)
    ensures [u] + ([] + joined + trail) == [] + ([u] + joined) + trail
  {
  }

  lemma BlankBetween(u: Unit, lead: Text, joined: Text, trail: Text)
    ensures [u] + (lead + joined + trail) == [] + ([u] + lead + joined) + trail
  {
  }

  lemma WordsOfNone()
    ensures Words([]) == [] && Collapse([]) == []
  {
  }

  /** One step of collapsing and of the split into words. */
  lemma WordsStep(t: Text)
    requires t != []
    ensures
      var rest := t[1..];
      var blank, next := IsSpace(t[0]), rest != [] && IsSpace(rest[0]);
      && (blank ==> Words(t) == Words(rest) && Collapse(t) == if next then Collapse(rest) else [0x20] + Collapse(rest))
      && (!blank ==> Collapse(t) == [t[0]] + Collapse(rest))
      && (!blank && (rest == [] || next) ==> Words(t) == [[t[0]]] + Words(rest))
      && (!blank && rest != [] && !next ==> Words(rest) != [] && Words(t) == [[t[0]] + Words(rest)[0]] + Words(rest)[1..])
      && (rest == [] ==> Words(rest) == [] && Collapse(rest) == [])
  {
    hide IsSpace;
  }

  /** A word put before the others. */
  lemma JoinWord(word: Text, words: seq<Text>)
    ensures Join([word] + words, 0x20) == if words == [] then word else word + [0x20] + Join(words, 0x20)
  {
    assert ([word] + words)[1..] == words;
  }

  /** A unit put before the first part. */
  lemma JoinFirst(u: Unit, parts: seq<Text>)
    requires parts != []
    ensures Join([[u] + parts[0]] + parts[1..], 0x20) == [u] + Join(parts, 0x20)
  {
    var longer := [[u] + parts[0]] + parts[1..];
    assert longer[1..] == parts[1..];
  }

  lemma {:induction false} JoinedEnds(words: seq<Text>)
    requires words != [] && forall i | 0 <= i < |words| :: words[i] != [] && forall u | u in words[i] :: !IsSpace(u)
    ensures
      var t := Join(words, 0x20);
      t != [] && !IsSpace(t[0]) && !IsSpace(t[|t| - 1])
    decreases |words|
  {
    var first := words[0];
    assert first[0] in first && first[|first| - 1] in first;
    if |words| > 1 { JoinedEnds(words[1..]); }
  }

  lemma TrimmedBlanks(t: Text, lead: Text, trail: Text)
    requires t == [] || (!IsSpace(t[0]) && !IsSpace(t[|t| - 1]))
    requires (lead == [] || (lead == [0x20] && t != [])) && (trail == [] || trail == [0x20])
    ensures TrimEnd(TrimStart(lead + t + trail)) == t
  {
    if t == [] {
      assert lead + t + trail == trail;
      if trail != [] { assert trail[1..] == [] && TrimStart(trail) == []; }
    } else {
      var all := t + trail;
      assert TrimStart(all) == all;
      if lead != [] { assert (lead + t + trail)[1..] == all && lead + t + trail == [0x20] + all; } else { assert lead + t + trail == all; }
      if trail != [] { assert all[..|all| - 1] == t; } else { assert all == t; }
    }
  }

  /** One line is the text's words with one blank between, cut. */
  lemma OneLineIs(t: Text, max: nat)
    ensures OneLine(t, max) == Cap(Join(Words(t), 0x20), max)
  {
    hide Collapse, Words, Join, Cap, IsSpace;
    CollapseIs(t);
    var words := Words(t);
    var joined := Join(words, 0x20);
    if words != [] { JoinedEnds(words); } else { NothingJoined(); }
    TrimmedBlanks(joined, LeadOf(t), TrailOf(t));
  }

  lemma NothingJoined()
    ensures Join([], 0x20) == []
  {
  }

  // ------------------------------------------------------------ node labels

  datatype TextNode = TextNode(tag: string, role: string, innerText: Text, ariaLabel: Text, children: seq<TextNode>)

  function Join(parts: seq<Text>, separator: Unit): Text {
    if parts == [] then [] else if |parts| == 1 then parts[0] else parts[0] + [separator] + Join(parts[1..], separator)
  }

  function NodeText(n: TextNode): (r: Text)
    ensures |r| <= DIGEST_LINE_MAX && forall u | u in r :: !IsSpace(u) || u == 0x20
    decreases n, 0
  {
    var own := OneLine(if n.innerText != [] then n.innerText else n.ariaLabel, DIGEST_LINE_MAX);
    if own != [] then own else OneLine(Join(TextParts(n.children, []), 0x20), DIGEST_LINE_MAX)
  }

  /** The children's texts, until they fill a line. */
  function TextParts(nodes: seq<TextNode>, parts: seq<Text>): seq<Text>
    decreases nodes, 0
  {
    if nodes == [] then parts else
      var text := NodeText(nodes[0]);
      var more := if text != [] then parts + [text] else parts;
      if |Join(more, 0x20)| >= DIGEST_LINE_MAX then more else TextParts(nodes[1..], more)
  }

  function FirstLinkText(nodes: seq<TextNode>): (r: Text)
    ensures |r| <= DIGEST_LINE_MAX && forall u | u in r :: !IsSpace(u) || u == 0x20
  {
    if nodes == [] then [] else
      var n := nodes[0];
      var text := if n.tag == "a" || n.role == "link" then NodeText(n) else [];
      if text != [] then text else
        var nested := FirstLinkText(n.children);
        if nested != [] then nested else FirstLinkText(nodes[1..])
  }

  predicate IsHeading(n: TextNode) { n.tag in {"h1", "h2", "h3", "h4", "h5", "h6"} || n.role == "heading" }

  predicate IsRow(n: TextNode) { n.tag in {"li", "tr"} || n.role in {"row", "listitem"} }

  /** The node's digest line: a heading's text, a row's first link or text. */
  function LineOf(n: TextNode): (r: Text)
    ensures |r| <= DIGEST_LINE_MAX && forall u | u in r :: !IsSpace(u) || u == 0x20
  {
    if IsHeading(n) then NodeText(n)
    else if IsRow(n) then (if FirstLinkText(n.children) != [] then FirstLinkText(n.children) else NodeText(n))
    else []
  }

  /** The links of a forest, in preorder. */
  function Links(nodes: seq<TextNode>): seq<TextNode> {
    if nodes == [] then [] else
      (if nodes[0].tag == "a" || nodes[0].role == "link" then [nodes[0]] else []) + Links(nodes[0].children) + Links(nodes[1..])
  }

  /** The first of the nodes that has a text. */
  function FirstText(nodes: seq<TextNode>): Text {
    if nodes == [] then [] else if NodeText(nodes[0]) != [] then NodeText(nodes[0]) else FirstText(nodes[1..])
  }

  lemma {:induction false} FirstTextConcat(a: seq<TextNode>, b: seq<TextNode>)
    ensures FirstText(a + b) == if FirstText(a) != [] then FirstText(a) else FirstText(b)
  {
    hide NodeText;
    if a == [] { assert a + b == b; } else {
      assert (a + b)[1..] == a[1..] + b;
      FirstTextConcat(a[1..], b);
    }
  }

  lemma {:induction false} FirstLinkIs(nodes: seq<TextNode>)
    ensures FirstLinkText(nodes) == FirstText(Links(nodes))
    decreases nodes
  {
    hide NodeText;
    if nodes != [] {
      var n := nodes[0];
      var own := if n.tag == "a" || n.role == "link" then [n] else [];
      FirstLinkIs(n.children);
      FirstLinkIs(nodes[1..]);
      FirstTextConcat(own + Links(n.children), Links(nodes[1..]));
      FirstTextConcat(own, Links(n.children));
      if own != [] { assert own[1..] == [] && FirstText([]) == []; }
    }
  }

  /** The texts of the nodes that have one. */
  function Texts(nodes: seq<TextNode>): seq<Text> {
    if nodes == [] then [] else (if NodeText(nodes[0]) != [] then [NodeText(nodes[0])] else []) + Texts(nodes[1..])
  }

  lemma {:induction false} JoinGrows(parts: seq<Text>, more: seq<Text>)
    ensures |Join(parts, 0x20)| <= |Join(parts + more, 0x20)|
    decreases |parts|
  {
    if |parts| == 0 {
    } else if |parts| == 1 {
      assert more != [] ==> (parts + more)[1..] == more;
      assert more == [] ==> parts + more == parts;
    } else {
      assert (parts + more)[1..] == parts[1..] + more;
      JoinGrows(parts[1..], more);
    }
  }

  lemma {:induction false} PartsAreTexts(nodes: seq<TextNode>, parts: seq<Text>)
    requires |Join(parts + Texts(nodes), 0x20)| < DIGEST_LINE_MAX
    ensures TextParts(nodes, parts) == parts + Texts(nodes)
    decreases |nodes|
  {
    hide NodeText, Join;
    if nodes == [] {
      assert parts + [] == parts;
    } else {
      var text := NodeText(nodes[0]);
      var more := if text != [] then parts + [text] else parts;
      assert parts + Texts(nodes) == more + Texts(nodes[1..]);
      JoinGrows(more, Texts(nodes[1..]));
      PartsAreTexts(nodes[1..], more);
    }
  }

  /** A node's text: its own words or, without a text, its label's, cut at 120; with
      neither, its children's texts one after another (while they stay below the cut). */
  lemma NodeTextIs(n: TextNode)
    ensures
      var own := Cap(Join(Words(if n.innerText != [] then n.innerText else n.ariaLabel), 0x20), 120);
      && (own != [] ==> NodeText(n) == own)
      && (own == [] && |Join(Texts(n.children), 0x20)| < 120 ==>
            NodeText(n) == Cap(Join(Words(Join(Texts(n.children), 0x20)), 0x20), 120))
  {
    hide Join, Words, Texts, TextParts, OneLine;
    OneLineIs(if n.innerText != [] then n.innerText else n.ariaLabel, 120);
    OneLineIs(Join(Texts(n.children), 0x20), 120);
    if |Join(Texts(n.children), 0x20)| < 120 {
      assert [] + Texts(n.children) == Texts(n.children);
      PartsAreTexts(n.children, []);
    }
  }

  /** A heading is labelled by its text, whatever else it is; a row by the first of its
      links that has a text, in preorder, and without one by its own; nothing else is. */
  lemma LabelIs(n: TextNode)
    ensures
      var heading := n.role == "heading" || n.tag in ["h1", "h2", "h3", "h4", "h5", "h6"];
      var row := n.role in ["row", "listitem"] || n.tag in ["li", "tr"];
      LineOf(n) ==
        if heading then NodeText(n)
        else if !row then []
        else if FirstText(Links(n.children)) != [] then FirstText(Links(n.children))
        else NodeText(n)
  {
    FirstLinkIs(n.children);
    hide FirstLinkText, NodeText, FirstText, Links;
  }

  // -------------------------------------------------------------- the digest

  /** The lines of a preorder traversal with no size limit, after `lines`: a node
      whose line is new gives that line and is not descended into. */
  ghost function Visit(forest: seq<TextNode>, lines: seq<Text>): seq<Text>
    decreases forest
  {
    if forest == [] then lines else
      var line := LineOf(forest[0]);
      if line != [] && line !in lines then Visit(forest[1..], lines + [line])
      else Visit(forest[1..], Visit(forest[0].children, lines))
  }

  lemma {:induction false} VisitConcat(f: seq<TextNode>, g: seq<TextNode>, lines: seq<Text>)
    ensures Visit(f + g, lines) == Visit(g, Visit(f, lines))
    decreases |f|
  {
    if f == [] {
      assert f + g == g;
    } else {
      assert (f + g)[1..] == f[1..] + g;
      var line := LineOf(f[0]);
      VisitConcat(f[1..], g, if line != [] && line !in lines then lines + [line] else Visit(f[0].children, lines));
    }
  }

  ghost predicate Distinct(lines: seq<Text>) {
    forall i, j | 0 <= i < j < |lines| :: lines[i] != lines[j]
  }

  ghost predicate AllLines(lines: seq<Text>) {
    forall i | 0 <= i < |lines| :: 0 < |lines[i]| <= DIGEST_LINE_MAX && forall u | u in lines[i] :: u != 0x0A
  }

  lemma {:induction false} VisitGrows(forest: seq<TextNode>, lines: seq<Text>)
    requires Distinct(lines) && AllLines(lines)
    ensures lines <= Visit(forest, lines) && Distinct(Visit(forest, lines)) && AllLines(Visit(forest, lines))
    decreases forest
  {
    if forest != [] {
      var line := LineOf(forest[0]);
      if line != [] && line !in lines {
        VisitGrows(forest[1..], lines + [line]);
        assert lines <= lines + [line];
      } else {
        VisitGrows(forest[0].children, lines);
        VisitGrows(forest[1..], Visit(forest[0].children, lines));
      }
    }
  }

  lemma {:induction false} VisitExtends(forest: seq<TextNode>, lines: seq<Text>)
    ensures lines <= Visit(forest, lines)
    decreases forest
  {
    if forest != [] {
      var line := LineOf(forest[0]);
      if line != [] && line !in lines {
        VisitExtends(forest[1..], lines + [line]);
      } else {
        VisitExtends(forest[0].children, lines);
        VisitExtends(forest[1..], Visit(forest[0].children, lines));
      }
    }
  }

  lemma VisitNothing(lines: seq<Text>)
    ensures Visit(Reversed([]), lines) == lines
  {
  }

  /** The characters of the lines, a separator after each. */
  function LineSize(lines: seq<Text>): nat {
    if lines == [] then 0 else LineSize(lines[..|lines| - 1]) + |lines[|lines| - 1]| + 1
  }

  lemma LineSizeNone()
    ensures LineSize([]) == 0
  {
  }

  lemma LineSizeMore(lines: seq<Text>, line: Text)
    ensures (lines + [line])[..|lines|] == lines
    ensures LineSize(lines + [line]) == LineSize(lines) + |line| + 1
  {
    assert (lines + [line])[..|lines|] == lines;
  }

  lemma {:induction false} JoinSize(lines: seq<Text>)
    ensures |Join(lines, 0x0A)| == if lines == [] then 0 else LineSize(lines) - 1
    decreases |lines|
  {
    if |lines| > 1 {
      JoinSize(lines[1..]);
      LineSizeFront(lines);
    } else if |lines| == 1 {
      assert lines[..0] == [];
    }
  }

  lemma {:induction false} LineSizeFront(lines: seq<Text>)
    requires lines != []
    ensures LineSize(lines) == |lines[0]| + 1 + LineSize(lines[1..])
  {
    if |lines| == 1 {
      assert lines[..0] == [] && lines[1..] == [];
    } else {
      LineSizeFront(lines[..|lines| - 1]);
      assert lines[..|lines| - 1][1..] == lines[1..][..|lines| - 2];
    }
  }

  function NodesIn(forest: seq<TextNode>): nat {
    if forest == [] then 0 else 1 + NodesIn(forest[0].children) + NodesIn(forest[1..])
  }

  lemma {:induction false} NodesInConcat(f: seq<TextNode>, g: seq<TextNode>)
    ensures NodesIn(f + g) == NodesIn(f) + NodesIn(g)
    decreases |f|
  {
    if f == [] { assert f + g == g; } else {
      assert (f + g)[1..] == f[1..] + g;
      NodesInConcat(f[1..], g);
    }
  }

  lemma {:induction false} ReversedConcat<T>(a: seq<T>, b: seq<T>)
    ensures Reversed(a + b) == Reversed(b) + Reversed(a)
  {
    if a == [] { assert a + b == b; } else {
      assert (a + b)[1..] == a[1..] + b;
      ReversedConcat(a[1..], b);
    }
  }

  lemma {:induction false} ReversedTwice<T>(a: seq<T>)
    ensures Reversed(Reversed(a)) == a
  {
    if a != [] {
      ReversedSnoc(Reversed(a[1..]), a[0]);
      ReversedTwice(a[1..]);
    }
  }

  /** Popping a node that gives no line and pushing its children, last first. */
  lemma PushChildren(stack: seq<TextNode>, lines: seq<Text>)
    requires stack != []
    ensures
      var n, rest := stack[|stack| - 1], stack[..|stack| - 1];
      && (LineOf(n) == [] || LineOf(n) in lines ==>
            Visit(Reversed(stack), lines) == Visit(Reversed(rest + Reversed(n.children)), lines))
      && (LineOf(n) != [] && LineOf(n) !in lines ==>
            Visit(Reversed(stack), lines) == Visit(Reversed(rest), lines + [LineOf(n)]))
      && NodesIn(Reversed(stack)) == 1 + NodesIn(Reversed(rest + Reversed(n.children)))
      && NodesIn(Reversed(stack)) > NodesIn(Reversed(rest))
  {
    var n, rest := stack[|stack| - 1], stack[..|stack| - 1];
    ReversedSnoc(rest, n);
    assert rest + [n] == stack;
    assert ([n] + Reversed(rest))[1..] == Reversed(rest);
    ReversedConcat(rest, Reversed(n.children));
    ReversedTwice(n.children);
    VisitConcat(n.children, Reversed(rest), lines);
    NodesInConcat(n.children, Reversed(rest));
  }

  /** The shortest prefix of the lines that reaches the cap, all of them if none does. */
  function UpToCap(lines: seq<Text>): (kept: seq<Text>)
    ensures kept <= lines && (kept == lines || LineSize(kept) >= MAX_DIGEST_CHARS)
    ensures kept != [] ==> LineSize(kept[..|kept| - 1]) < MAX_DIGEST_CHARS
  {
    if lines == [] || LineSize(lines[..|lines| - 1]) < MAX_DIGEST_CHARS then lines else UpToCap(lines[..|lines| - 1])
  }

  lemma {:induction false} PrefixSize(a: seq<Text>, b: seq<Text>)
    requires a <= b
    ensures LineSize(a) <= LineSize(b)
    decreases |b|
  {
    if |a| < |b| {
      PrefixSize(a, b[..|b| - 1]);
    } else {
      assert a == b;
    }
  }

  lemma {:induction false} UpToCapIs(lines: seq<Text>, kept: seq<Text>)
    requires kept <= lines && (kept == lines || LineSize(kept) >= MAX_DIGEST_CHARS)
    requires kept != [] ==> LineSize(kept[..|kept| - 1]) < MAX_DIGEST_CHARS
    ensures UpToCap(lines) == kept
    decreases |lines|
  {
    if kept != lines {
      PrefixSize(kept, lines[..|lines| - 1]);
      UpToCapIs(lines[..|lines| - 1], kept);
    }
  }

  ghost function DigestLines(nodes: seq<TextNode>): (lines: seq<Text>)
    ensures Distinct(lines) && AllLines(lines)
  {
    VisitGrows(nodes, []);
    UpToCap(Visit(nodes, []))
  }

  ghost function Digest(nodes: seq<TextNode>): (digest: Text)
    ensures |digest| <= MAX_DIGEST_CHARS
  {
    Cap(Join(DigestLines(nodes), 0x0A), MAX_DIGEST_CHARS)
  }

  /** The digest: of the traversal's distinct lines, the shortest prefix that
      reaches the cap (all of them if none does), joined and cut at the cap. */
  method BuildDigest(nodes: seq<TextNode>) returns (digest: Text, lines: seq<Text>)
    ensures digest == Digest(nodes) && lines == DigestLines(nodes)
    ensures lines <= Visit(nodes, []) && Distinct(lines) && AllLines(lines)
    ensures lines == Visit(nodes, []) || LineSize(lines) >= MAX_DIGEST_CHARS
    ensures lines != [] ==> LineSize(lines[..|lines| - 1]) < MAX_DIGEST_CHARS
    ensures digest == Cap(Join(lines, 0x0A), MAX_DIGEST_CHARS)
    ensures |digest| == if lines == [] then 0 else if LineSize(lines) - 1 <= MAX_DIGEST_CHARS then LineSize(lines) - 1 else MAX_DIGEST_CHARS
  {
    hide Visit, NodesIn, LineOf, Reversed, LineSize, Join;
    lines := [];
    LineSizeNone();
    var seen: set<Text> := {};
    var size := 0;
    var stack := Reversed(nodes);
    ReversedTwice(nodes);
    while stack != [] && size < MAX_DIGEST_CHARS
      invariant Visit(nodes, []) == Visit(Reversed(stack), lines)
      invariant size == LineSize(lines) && (forall t :: t in seen <==> t in lines)
      invariant lines != [] ==> LineSize(lines[..|lines| - 1]) < MAX_DIGEST_CHARS
      decreases NodesIn(Reversed(stack))
    {
      PushChildren(stack, lines);
      var node := stack[|stack| - 1];
      stack := stack[..|stack| - 1];
      var line := LineOf(node);
      if line != [] && line !in seen {
        LineSizeMore(lines, line);
        seen := seen + {line};
        lines := lines + [line];
        size := size + |line| + 1;
      } else {
        stack := stack + Reversed(node.children);
      }
    }
    VisitExtends(Reversed(stack), lines);
    VisitGrows(nodes, []);
    VisitNothing(lines);
    JoinSize(lines);
    UpToCapIs(Visit(nodes, []), lines);
    digest := Cap(Join(lines, 0x0A), MAX_DIGEST_CHARS);
  }

  // --------------------------------------------------- the digest's own lines

  /** `split('\n')`. */
  function Split(t: Text): (lines: seq<Text>)
    ensures |lines| > 0
  {
    if t == [] then [[]]
    else if t[0] == 0x0A then [[]] + Split(t[1..])
    else
      var rest := Split(t[1..]);
      [[t[0]] + rest[0]] + rest[1..]
  }

  predicate OneLineLong(t: Text) { forall i | 0 <= i < |t| :: t[i] != 0x0A }

  lemma {:induction false} SplitLine(t: Text, rest: Text)
    requires OneLineLong(t)
    ensures Split(t) == [t] && Split(t + [0x0A] + rest) == [t] + Split(rest)
  {
    var all := t + [0x0A] + rest;
    if t == [] {
      assert all[1..] == rest;
    } else {
      SplitLine(t[1..], rest);
      assert all[1..] == t[1..] + [0x0A] + rest;
      assert ([t[1..]] + Split(rest))[1..] == Split(rest);
      assert [t[0]] + t[1..] == t;
    }
  }

  lemma {:induction false} SplitJoined(lines: seq<Text>)
    requires lines != [] && forall i | 0 <= i < |lines| :: OneLineLong(lines[i])
    ensures Split(Join(lines, 0x0A)) == lines
    decreases |lines|
  {
    if |lines| == 1 {
      SplitLine(lines[0], []);
    } else {
      SplitJoined(lines[1..]);
      SplitLine(lines[0], Join(lines[1..], 0x0A));
    }
  }

  /** The lines, each with its line break. */
  function Ended(lines: seq<Text>): Text {
    if lines == [] then [] else lines[0] + [0x0A] + Ended(lines[1..])
  }

  lemma {:induction false} JoinSnoc(lines: seq<Text>, last: Text)
    ensures Join(lines + [last], 0x0A) == Ended(lines) + last
    ensures |Ended(lines)| == LineSize(lines)
    decreases |lines|
  {
    if lines == [] {
      assert lines + [last] == [last];
    } else {
      assert (lines + [last])[1..] == lines[1..] + [last];
      JoinSnoc(lines[1..], last);
      LineSizeFront(lines);
    }
  }

  /** Where the cut falls: in the last line, which keeps `room` units of it. */
  lemma CutInLastLine(lines: seq<Text>)
    requires lines != [] && LineSize(lines[..|lines| - 1]) < MAX_DIGEST_CHARS
    ensures
      var n := |lines| - 1;
      var room := MAX_DIGEST_CHARS - LineSize(lines[..n]);
      Cap(Join(lines, 0x0A), MAX_DIGEST_CHARS) == Join(lines[..n] + [Cap(lines[n], room)], 0x0A)
  {
    hide Join, LineSize, Ended;
    var n := |lines| - 1;
    var front, last, room := lines[..n], lines[n], MAX_DIGEST_CHARS - LineSize(lines[..n]);
    assert lines == front + [last];
    JoinSnoc(front, last);
    JoinSnoc(front, Cap(last, room));
    CutSuffix(Ended(front), last, MAX_DIGEST_CHARS);
  }

  lemma CutSuffix(a: Text, b: Text, max: nat)
    requires |a| <= max
    ensures Cap(a + b, max) == a + Cap(b, max - |a|)
  {
    if |a + b| > max {
      assert (a + b)[..max] == a + b[..max - |a|];
    }
  }

  /** The digest's lines are what was gathered, the last one perhaps cut, and none is
      empty; they are distinct if and only if the cut leaves the last line whole or
      leaves of it what is none of the lines before. */
  lemma DigestIsDistinctIff(nodes: seq<TextNode>)
    requires DigestLines(nodes) != []
    ensures
      var lines := DigestLines(nodes);
      var n := |lines| - 1;
      && LineSize(lines[..n]) < MAX_DIGEST_CHARS
      && var room := MAX_DIGEST_CHARS - LineSize(lines[..n]);
         var shown := Split(Digest(nodes));
         && shown == lines[..n] + [Cap(lines[n], room)]
         && (forall t | t in shown :: t != [])
         && (Distinct(shown) <==> |lines[n]| <= room || lines[n][..room] !in lines[..n])
  {
    hide Visit, LineSize, Join, UpToCap;
    var lines := DigestLines(nodes);
    var n := |lines| - 1;
    var front, room := lines[..n], MAX_DIGEST_CHARS - LineSize(lines[..n]);
    CutInLastLine(lines);
    var shown := front + [Cap(lines[n], room)];
    forall i | 0 <= i < |shown|
      ensures OneLineLong(shown[i])
    {
      assert forall k | 0 <= k < |lines[i]| :: lines[i][k] in lines[i];
    }
    SplitJoined(shown);
    if |lines[n]| > room && lines[n][..room] in front {
      var i :| 0 <= i < n && front[i] == lines[n][..room];
      assert shown[i] == shown[n];
    }
  }

  // A page of headings.

  function Heading(t: Text): TextNode { TextNode("h1", "", t, [], []) }

  function Headings(texts: seq<Text>): (nodes: seq<TextNode>)
    ensures |nodes| == |texts| && forall i | 0 <= i < |texts| :: nodes[i] == Heading(texts[i])
  {
    if texts == [] then [] else [Heading(texts[0])] + Headings(texts[1..])
  }

  predicate Plain(t: Text) { 0 < |t| <= DIGEST_LINE_MAX && forall u | u in t :: !IsSpace(u) }

  lemma {:induction false} CollapsePlain(t: Text)
    requires forall u | u in t :: !IsSpace(u)
    ensures Collapse(t) == t
  {
    if t != [] { CollapsePlain(t[1..]); }
  }

  lemma HeadingLine(t: Text)
    requires Plain(t)
    ensures LineOf(Heading(t)) == t && t != []
  {
    CollapsePlain(t);
    assert t[0] in t && t[|t| - 1] in t;
    assert OneLine(t, DIGEST_LINE_MAX) == t;
  }

  lemma {:induction false} VisitHeadings(texts: seq<Text>, lines: seq<Text>)
    requires (forall t | t in texts :: Plain(t)) && Distinct(lines + texts)
    ensures Visit(Headings(texts), lines) == lines + texts
    decreases |texts|
  {
    hide LineOf, Plain, Distinct;
    if texts == [] {
      assert lines + texts == lines;
    } else {
      HeadingLine(texts[0]);
      FirstIsNew(texts, lines);
      assert lines + texts == (lines + [texts[0]]) + texts[1..];
      assert Headings(texts) == [Heading(texts[0])] + Headings(texts[1..]);
      VisitHeadings(texts[1..], lines + [texts[0]]);
    }
  }

  lemma FirstIsNew(texts: seq<Text>, lines: seq<Text>)
    requires texts != [] && Distinct(lines + texts)
    ensures texts[0] !in lines
  {
    assert (lines + texts)[|lines|] == texts[0];
    assert forall i | 0 <= i < |lines| :: (lines + texts)[i] == lines[i];
  }

  /** The digest's lines of a page of headings that only the last one brings to the cap, if any. */
  lemma HeadingsDigest(texts: seq<Text>)
    requires texts != [] && Distinct(texts) && forall t | t in texts :: Plain(t)
    requires LineSize(texts[..|texts| - 1]) < MAX_DIGEST_CHARS
    ensures DigestLines(Headings(texts)) == texts
  {
    hide Visit, LineSize, Headings, Plain, Distinct;
    assert [] + texts == texts;
    VisitHeadings(texts, []);
    UpToCapIs(texts, texts);
  }

  function Repeat(u: Unit, k: nat): (t: Text)
    ensures |t| == k && forall i | 0 <= i < k :: t[i] == u
  {
    seq(k, _ => u)
  }

  const QUOTE: Unit := 0x22
  const LETTER: Unit := 0x61

  /** 120 units, quotation marks but for a letter at `i`. */
  function Marked(i: nat): (t: Text)
    requires i < DIGEST_LINE_MAX
    ensures |t| == DIGEST_LINE_MAX && forall k | 0 <= k < |t| :: t[k] == if k == i then LETTER else QUOTE
  {
    Repeat(QUOTE, i) + [LETTER] + Repeat(QUOTE, DIGEST_LINE_MAX - 1 - i)
  }

  function AllMarked(n: nat): (lines: seq<Text>)
    requires n <= DIGEST_LINE_MAX
    ensures |lines| == n && forall i | 0 <= i < n :: lines[i] == Marked(i)
    ensures Distinct(lines)
  {
    MarkedDiffer();
    seq(n, i requires 0 <= i < n => Marked(i))
  }

  lemma MarkedDiffer()
    ensures forall i, j | 0 <= i < j < DIGEST_LINE_MAX :: Marked(i) != Marked(j)
  {
    forall i, j | 0 <= i < j < DIGEST_LINE_MAX
      ensures Marked(i) != Marked(j)
    {
      assert Marked(i)[i] != Marked(j)[i];
    }
  }

  lemma {:induction false} LineSizeConcat(a: seq<Text>, b: seq<Text>)
    ensures LineSize(a + b) == LineSize(a) + LineSize(b)
    decreases |b|
  {
    if b == [] {
      assert a + b == a;
    } else {
      assert (a + b)[..|a + b| - 1] == a + b[..|b| - 1];
      LineSizeConcat(a, b[..|b| - 1]);
    }
  }

  lemma {:induction false} EqualLines(lines: seq<Text>, k: nat)
    requires forall i | 0 <= i < |lines| :: |lines[i]| == k
    ensures LineSize(lines) == |lines| * (k + 1)
    decreases |lines|
  {
    if lines != [] {
      EqualLines(lines[..|lines| - 1], k);
      assert |lines| * (k + 1) == (|lines| - 1) * (k + 1) + (k + 1);
    }
  }

  /** Headings whose last line begins with the first, cut where it ends. */
  function RepeatingTexts(): (texts: seq<Text>)
  {
    [Repeat(LETTER, 51)] + AllMarked(33) + [Repeat(LETTER, 52)]
  }

  lemma RepeatingTextsFacts()
    ensures Distinct(RepeatingTexts()) && forall t | t in RepeatingTexts() :: Plain(t)
    ensures |RepeatingTexts()| == 35 && LineSize(RepeatingTexts()[..34]) == 4045
    ensures RepeatingTexts()[0] == Repeat(LETTER, 51) && RepeatingTexts()[34] == Repeat(LETTER, 52)
  {
    hide LineSize;
    var texts, front := RepeatingTexts(), [Repeat(LETTER, 51)] + AllMarked(33);
    assert texts[..34] == front;
    LineSizeConcat([Repeat(LETTER, 51)], AllMarked(33));
    EqualLines([Repeat(LETTER, 51)], 51);
    EqualLines(AllMarked(33), 120);
    forall i | 1 <= i < 34
      ensures texts[i] == Marked(i - 1) && |texts[i]| == 120
    {
    }
  }

  /** An instance: the digest of this page repeats its first line at its end. */
  lemma DigestCanRepeat()
    ensures
      var shown := Split(Digest(Headings(RepeatingTexts())));
      |shown| == 35 && shown[34] == shown[0] && !Distinct(shown)
  {
    hide LineSize, RepeatingTexts, Split, Headings, DigestLines, Digest, Distinct, Plain;
    var texts := RepeatingTexts();
    RepeatingTextsFacts();
    HeadingsDigest(texts);
    DigestIsDistinctIff(Headings(texts));
    assert texts[34][..51] == texts[0];
    assert texts[..34][0] == texts[0];
  }

  // ----------------------------------------------------------- anchor chain

  /** An element on the way up from the interacted one. */
  datatype Ancestor = Ancestor(page: bool, landmark: bool, width: nat)

  /** The elements up to the first landmark, before the page and within `room`. */
  function ChainLength(path: seq<Ancestor>, room: nat): (n: nat)
    ensures n <= |path|
  {
    if path == [] || room == 0 || path[0].page then 0
    else if path[0].landmark then 1
    else 1 + ChainLength(path[1..], room - 1)
  }

  /** How many elements of the path up are collected: up to the nearest landmark,
      never the page itself, at most MAX_ANCHOR_CHAIN. */
  method AnchorChain(path: seq<Ancestor>) returns (n: nat)
    ensures n == ChainLength(path, MAX_ANCHOR_CHAIN)
    ensures n <= |path| && n <= 8
    ensures forall k | 0 <= k < n :: !path[k].page
    ensures forall k | 0 <= k < n - 1 :: !path[k].landmark
    ensures n == |path| || n == 8 || path[n].page || (n > 0 && path[n - 1].landmark)
  {
    n := 0;
    assert path[0..] == path;
    while n < |path| && n < MAX_ANCHOR_CHAIN
      invariant n <= |path| && n <= MAX_ANCHOR_CHAIN
      invariant forall k | 0 <= k < n :: !path[k].page && !path[k].landmark
      invariant ChainLength(path, MAX_ANCHOR_CHAIN) == n + ChainLength(path[n..], MAX_ANCHOR_CHAIN - n)
    {
      assert path[n..][1..] == path[n + 1..];
      if path[n].page {
        break;
      }
      n := n + 1;
      if path[n - 1].landmark {
        break;
      }
    }
  }

  // -------------------------------------------------------------- size fit

  predicate High(u: Unit) { 0xD800 <= u < 0xDC00 }

  predicate Low(u: Unit) { 0xDC00 <= u < 0xE000 }

  /** The characters a unit takes in a JSON string, outside a surrogate pair. */
  function UnitWidth(u: Unit): nat {
    if u == 0x22 || u == 0x5C || 8 <= u <= 10 || u == 12 || u == 13 then 2
    else if u < 0x20 || High(u) || Low(u) then 6
    else 1
  }

  /** The characters the text takes between the quotes: a surrogate pair stays, a lone surrogate is escaped. */
  function JsonWidth(t: Text): nat {
    if t == [] then 0
    else if |t| >= 2 && High(t[0]) && Low(t[1]) then 2 + JsonWidth(t[2..])
    else UnitWidth(t[0]) + JsonWidth(t[1..])
  }

  function Sum(widths: seq<nat>): nat {
    if widths == [] then 0 else Sum(widths[..|widths| - 1]) + widths[|widths| - 1]
  }

  /** The length of `{"anchors":[...],"digest":"...","truncated":...}`. */
  function SnapshotLength(anchors: seq<nat>, digest: Text, truncated: bool): nat {
    12 + Sum(anchors) + (if anchors == [] then 0 else |anchors| - 1)
    + 11 + 2 + JsonWidth(digest) + 13 + (if truncated then 4 else 5) + 1
  }

  // The text itself, as QuoteJSONString of ECMA-262 (section 25.5.2.3) writes it.

  function HexDigit(d: nat): Unit
    requires d < 16
  {
    if d < 10 then 0x30 + d else 0x57 + d
  }

  /** `\uXXXX`. */
  function Escaped(u: Unit): Text {
    [0x5C, 0x75, HexDigit(u / 4096), HexDigit(u / 256 % 16), HexDigit(u / 16 % 16), HexDigit(u % 16)]
  }

  function QuotedUnit(u: Unit): Text {
    match u
    case 0x22 => [0x5C, 0x22]
    case 0x5C => [0x5C, 0x5C]
    case 8 => [0x5C, 0x62]
    case 9 => [0x5C, 0x74]
    case 10 => [0x5C, 0x6E]
    case 12 => [0x5C, 0x66]
    case 13 => [0x5C, 0x72]
    case _ => if u < 0x20 || 0xD800 <= u <= 0xDFFF then Escaped(u) else [u]
  }

  function Quoted(t: Text): Text {
    if t == [] then []
    else if |t| >= 2 && 0xD800 <= t[0] <= 0xDBFF && 0xDC00 <= t[1] <= 0xDFFF then t[..2] + Quoted(t[2..])
    else QuotedUnit(t[0]) + Quoted(t[1..])
  }

  lemma {:induction false} WidthIsQuoted(t: Text)
    ensures JsonWidth(t) == |Quoted(t)|
    decreases |t|
  {
    hide QuotedUnit, UnitWidth;
    if |t| >= 2 && High(t[0]) && Low(t[1]) {
      WidthIsQuoted(t[2..]);
    } else if t != [] {
      UnitIsQuoted(t[0]);
      WidthIsQuoted(t[1..]);
    }
  }

  lemma UnitIsQuoted(u: Unit)
    ensures UnitWidth(u) == |QuotedUnit(u)|
  {
  }

  function Units(s: string): (t: Text)
    requires forall k | 0 <= k < |s| :: s[k] < '\U{80}'
    ensures |t| == |s|
  {
    if s == [] then [] else
      var first: Unit := s[0] as nat;
      [first] + Units(s[1..])
  }

  /** `JSON.stringify` of a snapshot, each anchor given by its own text. */
  function Serialized(anchors: seq<Text>, digest: Text, truncated: bool): Text {
    Units("{\"anchors\":[") + Join(anchors, 0x2C) + Units("],\"digest\":\"") + Quoted(digest)
    + Units("\",\"truncated\":") + Units(if truncated then "true" else "false") + Units("}")
  }

  function Sizes(parts: seq<Text>): (sizes: seq<nat>)
    ensures |sizes| == |parts| && forall i | 0 <= i < |parts| :: sizes[i] == |parts[i]|
  {
    seq(|parts|, i requires 0 <= i < |parts| => |parts[i]|)
  }

  /** The length reckoned with is that of the text. */
  lemma LengthIsSerialized(anchors: seq<Text>, digest: Text, truncated: bool)
    ensures SnapshotLength(Sizes(anchors), digest, truncated) == |Serialized(anchors, digest, truncated)|
  {
    hide Join, Sum, JsonWidth, Quoted;
    WidthIsQuoted(digest);
    JoinedSize(anchors);
  }

  lemma {:induction false} JoinedSize(parts: seq<Text>)
    ensures |Join(parts, 0x2C)| == Sum(Sizes(parts)) + if parts == [] then 0 else |parts| - 1
  {
    if parts != [] {
      var rest := parts[1..];
      JoinedSize(rest);
      assert Sizes(parts) == [|parts[0]|] + Sizes(rest);
      SumFirst(|parts[0]|, Sizes(rest));
    } else {
      assert Sizes(parts) == [];
    }
  }

  lemma {:induction false} SumFirst(first: nat, widths: seq<nat>)
    ensures Sum([first] + widths) == first + Sum(widths)
  {
    var n := |widths|;
    if n == 0 {
      assert ([first] + widths)[..n] == [];
    } else {
      assert ([first] + widths)[..n] == [first] + widths[..n - 1];
      SumFirst(first, widths[..n - 1]);
    }
  }

  /** Cutting at `n` would part a surrogate pair. */
  predicate Splits(t: Text, n: nat) {
    0 < n < |t| && High(t[n - 1]) && Low(t[n])
  }

  lemma {:induction false} WidthAtLeastLength(t: Text)
    ensures JsonWidth(t) >= |t|
    decreases |t|
  {
    if |t| >= 2 && High(t[0]) && Low(t[1]) { WidthAtLeastLength(t[2..]); }
    else if t != [] { WidthAtLeastLength(t[1..]); }
  }

  lemma {:induction false} WidthConcat(a: Text, b: Text)
    requires !(a != [] && b != [] && High(a[|a| - 1]) && Low(b[0]))
    ensures JsonWidth(a + b) == JsonWidth(a) + JsonWidth(b)
    decreases |a|
  {
    if a == [] {
      assert a + b == b;
    } else if |a| >= 2 && High(a[0]) && Low(a[1]) {
      assert (a + b)[2..] == a[2..] + b;
      WidthConcat(a[2..], b);
    } else {
      assert (a + b)[1..] == a[1..] + b;
      WidthConcat(a[1..], b);
    }
  }

  lemma SplitWidth(before: Text, high: Unit, low: Unit, after: Text)
    requires High(high) && Low(low)
    ensures JsonWidth(before + [high, low] + after) == JsonWidth(before) + 2 + JsonWidth(after)
    ensures JsonWidth(before + [high]) == JsonWidth(before) + 6
  {
    WidthConcat(before, [high]);
    WidthConcat(before, [high, low] + after);
    assert before + ([high, low] + after) == before + [high, low] + after;
    assert ([high, low] + after)[2..] == after && [high][1..] == [];
  }

  /** Removing units saves at least as many characters, unless the cut parts a
      surrogate pair: the half that stays takes 4 characters more than the pair. */
  lemma CutWidth(t: Text, n: nat)
    requires n <= |t|
    ensures !Splits(t, n) ==> JsonWidth(t) == JsonWidth(t[..n]) + JsonWidth(t[n..]) && JsonWidth(t[n..]) >= |t| - n
    ensures Splits(t, n) ==> JsonWidth(t) + 4 == JsonWidth(t[..n]) + JsonWidth(t[n + 1..])
  {
    hide JsonWidth;
    if !Splits(t, n) {
      assert t == t[..n] + t[n..];
      WidthConcat(t[..n], t[n..]);
      WidthAtLeastLength(t[n..]);
    } else {
      SplitWidth(t[..n - 1], t[n - 1], t[n], t[n + 1..]);
      assert t[..n - 1] + [t[n - 1]] == t[..n];
      assert t[..n - 1] + [t[n - 1], t[n]] + t[n + 1..] == t;
    }
  }

  /** The anchors left when outermost ones are dropped until it fits, or one is left. */
  function FittedAnchors(anchors: seq<nat>, digest: Text, truncated: bool): (kept: seq<nat>)
    ensures kept <= anchors && (anchors != [] ==> kept != [])
    ensures |kept| <= 1 || SnapshotLength(kept, digest, truncated) <= MAX_SNAPSHOT_CHARS
  {
    if |anchors| > 1 && SnapshotLength(anchors, digest, truncated) > MAX_SNAPSHOT_CHARS
    then FittedAnchors(anchors[..|anchors| - 1], digest, truncated)
    else anchors
  }

  /** The digest less as many units as the snapshot is too long. */
  function FittedText(kept: seq<nat>, digest: Text, truncated: bool): (text: Text)
    ensures text <= digest
  {
    var length := SnapshotLength(kept, digest, truncated);
    if length <= MAX_SNAPSHOT_CHARS then digest
    else if length - MAX_SNAPSHOT_CHARS <= |digest| then digest[..|digest| - (length - MAX_SNAPSHOT_CHARS)]
    else []
  }

  /** Drop outermost ancestors, then shorten the digest, until the snapshot fits. */
  method FitSnapshot(anchors: seq<nat>, digest: Text, truncated: bool) returns (kept: seq<nat>, text: Text)
    ensures kept == FittedAnchors(anchors, digest, truncated) && text == FittedText(kept, digest, truncated)
    ensures kept <= anchors && (anchors != [] ==> kept != [])
    ensures kept == anchors || SnapshotLength(anchors[..|kept| + 1], digest, truncated) > MAX_SNAPSHOT_CHARS
    ensures text <= digest && (text == digest || |kept| <= 1)
    ensures
      || SnapshotLength(kept, text, truncated) <= MAX_SNAPSHOT_CHARS
      || (|kept| <= 1 && text == [])
      || (Splits(digest, |text|) && SnapshotLength(kept, text, truncated) <= MAX_SNAPSHOT_CHARS + 5)
    ensures
      var length := SnapshotLength(kept, digest, truncated);
      |text| == if length <= MAX_SNAPSHOT_CHARS then |digest|
                else if length - MAX_SNAPSHOT_CHARS <= |digest| then |digest| - (length - MAX_SNAPSHOT_CHARS)
                else 0
  {
    hide JsonWidth, Sum, Splits;
    kept := anchors;
    while SnapshotLength(kept, digest, truncated) > MAX_SNAPSHOT_CHARS && |kept| > 1
      invariant kept <= anchors && (anchors != [] ==> kept != [])
      invariant kept == anchors || SnapshotLength(anchors[..|kept| + 1], digest, truncated) > MAX_SNAPSHOT_CHARS
      invariant FittedAnchors(kept, digest, truncated) == FittedAnchors(anchors, digest, truncated)
      decreases |kept|
    {
      assert anchors[..|kept|] == kept;
      kept := kept[..|kept| - 1];
    }
    text := digest;
    var length := SnapshotLength(kept, digest, truncated);
    if length > MAX_SNAPSHOT_CHARS {
      var excess := length - MAX_SNAPSHOT_CHARS;
      var n := if excess <= |digest| then |digest| - excess else 0;
      text := digest[..n];
    }
    FittedTextFits(kept, digest, truncated);
  }

  /** What the shortening comes to. */
  lemma FittedTextFits(kept: seq<nat>, digest: Text, truncated: bool)
    ensures
      var text := FittedText(kept, digest, truncated);
      || SnapshotLength(kept, text, truncated) <= MAX_SNAPSHOT_CHARS
      || text == []
      || (Splits(digest, |text|) && SnapshotLength(kept, text, truncated) <= MAX_SNAPSHOT_CHARS + 5)
  {
    hide JsonWidth, Sum;
    var n := |FittedText(kept, digest, truncated)|;
    CutWidth(digest, n);
    if Splits(digest, n) {
      WidthAtLeastLength(digest[n + 1..]);
    }
  }

  /** The exact outcome of shortening the digest by the excess: the snapshot fits
      unless the cut parts a surrogate pair and what is removed after the pair has
      fewer than 5 characters of escapes. */
  lemma ShortenedFitsIff(anchors: seq<nat>, digest: Text, truncated: bool, n: nat)
    requires n <= |digest|
    requires SnapshotLength(anchors, digest, truncated) == MAX_SNAPSHOT_CHARS + (|digest| - n)
    ensures SnapshotLength(anchors, digest[..n], truncated) <= MAX_SNAPSHOT_CHARS
            <==> !Splits(digest, n) || JsonWidth(digest[n + 1..]) >= |digest[n + 1..]| + 5
  {
    CutWidth(digest, n);
  }

  // -------------------------------------------------------------- snapshot

  datatype Snapshot = Snapshot(anchors: seq<nat>, digest: Text, truncated: bool)

  function Length(s: Snapshot): nat { SnapshotLength(s.anchors, s.digest, s.truncated) }

  function Widths(path: seq<Ancestor>, n: nat): (widths: seq<nat>)
    requires n <= |path|
    ensures |widths| == n
  {
    seq(n, i requires 0 <= i < n => path[i].width)
  }

  predicate HasMarker(tree: seq<TextNode>) { exists i :: 0 <= i < |tree| && tree[i].tag == "#truncated" }

  /** The snapshot of a tree; `path` leads up from the interacted element, empty when there is none. */
  ghost function Captured(path: seq<Ancestor>, tree: seq<TextNode>): Snapshot {
    var chain := Widths(path, ChainLength(path, MAX_ANCHOR_CHAIN));
    var kept := FittedAnchors(chain, Digest(tree), HasMarker(tree));
    Snapshot(kept, FittedText(kept, Digest(tree), HasMarker(tree)), HasMarker(tree))
  }

  method CaptureSnapshot(path: seq<Ancestor>, tree: seq<TextNode>) returns (snapshot: Snapshot)
    ensures snapshot == Captured(path, tree)
    ensures snapshot.truncated <==> exists node :: node in tree && node.tag == "#truncated"
  {
    var n := AnchorChain(path);
    var digest, _ := BuildDigest(tree);
    var anchors, text := FitSnapshot(Widths(path, n), digest, HasMarker(tree));
    snapshot := Snapshot(anchors, text, HasMarker(tree));
  }

  /** The cut leaves the high half of a surrogate pair, and what goes after the pair
      saves fewer than five characters beyond its units. */
  predicate Overruns(digest: Text, n: nat) {
    0 < n < |digest| && Splits(digest, n) && JsonWidth(digest[n + 1..]) < |digest[n + 1..]| + 5
  }

  /** The whole capture: its anchors are a prefix of the chain that holds the interacted
      element, its digest a prefix of the page's, and it fits if and only if the digest's
      cut does not overrun and, where the whole digest goes, that is enough.  It is
      never more than five characters over while any digest is left. */
  lemma CapturedFitsIff(path: seq<Ancestor>, tree: seq<TextNode>)
    ensures
      var s, digest := Captured(path, tree), Digest(tree);
      var chain := Widths(path, ChainLength(path, MAX_ANCHOR_CHAIN));
      var length := SnapshotLength(s.anchors, digest, s.truncated);
      && s.anchors <= chain && (chain != [] ==> s.anchors != []) && s.digest <= digest
      && (s.digest != digest ==> |s.anchors| <= 1)
      && (Length(s) <= MAX_SNAPSHOT_CHARS <==>
            || length <= MAX_SNAPSHOT_CHARS
            || (length - MAX_SNAPSHOT_CHARS <= |digest| && !Overruns(digest, |digest| - (length - MAX_SNAPSHOT_CHARS)))
            || (length - MAX_SNAPSHOT_CHARS > |digest| && length - JsonWidth(digest) <= MAX_SNAPSHOT_CHARS))
      && (Length(s) <= MAX_SNAPSHOT_CHARS + 5 || (s.digest == [] && |s.anchors| <= 1))
  {
    hide JsonWidth, Sum, Digest, Widths, ChainLength, FittedAnchors;
    var s, digest := Captured(path, tree), Digest(tree);
    var length := SnapshotLength(s.anchors, digest, s.truncated);
    EmptyWidth();
    if length > MAX_SNAPSHOT_CHARS && length - MAX_SNAPSHOT_CHARS <= |digest| {
      var n := |digest| - (length - MAX_SNAPSHOT_CHARS);
      ShortenedFitsIff(s.anchors, digest, s.truncated, n);
      CutWidth(digest, n);
      if Splits(digest, n) {
        WidthAtLeastLength(digest[n + 1..]);
      }
    }
  }

  lemma EmptyWidth()
    ensures JsonWidth([]) == 0
  {
  }

  // A page of 29 headings whose digest ends on a surrogate pair (an emoji).

  function EmojiLine(): (t: Text)
    ensures |t| == DIGEST_LINE_MAX && t[118] == 0xD83D && t[119] == 0xDE00
  {
    Repeat(QUOTE, 89) + Repeat(LETTER, 29) + [0xD83D, 0xDE00]
  }

  lemma {:induction false} RepeatWidth(u: Unit, k: nat)
    requires !High(u)
    ensures JsonWidth(Repeat(u, k)) == k * UnitWidth(u)
  {
    if k > 0 {
      RepeatWidth(u, k - 1);
      assert Repeat(u, k)[1..] == Repeat(u, k - 1);
      assert k * UnitWidth(u) == (k - 1) * UnitWidth(u) + UnitWidth(u);
    }
  }

  lemma MarkedWidth(i: nat)
    requires i < DIGEST_LINE_MAX
    ensures JsonWidth(Marked(i)) == 239
  {
    hide JsonWidth;
    WidthConcat(Repeat(QUOTE, i) + [LETTER], Repeat(QUOTE, DIGEST_LINE_MAX - 1 - i));
    WidthConcat(Repeat(QUOTE, i), [LETTER]);
    RepeatWidth(QUOTE, i);
    RepeatWidth(QUOTE, DIGEST_LINE_MAX - 1 - i);
    OneWidth(LETTER);
  }

  lemma OneWidth(u: Unit)
    ensures JsonWidth([u]) == UnitWidth(u)
  {
    assert [u][1..] == [];
  }

  lemma EmojiLineWidth()
    ensures JsonWidth(EmojiLine()) == 209
  {
    hide JsonWidth;
    var a, b := Repeat(QUOTE, 89), Repeat(LETTER, 29);
    RepeatWidth(QUOTE, 89);
    RepeatWidth(LETTER, 29);
    WidthConcat(a, b);
    SplitWidth(a + b, 0xD83D, 0xDE00, []);
    assert a + b + [0xD83D, 0xDE00] + [] == EmojiLine();
    EmptyWidth();
  }

  lemma {:induction false} EndedWidth(lines: seq<Text>, w: nat)
    requires forall i | 0 <= i < |lines| :: lines[i] != [] && JsonWidth(lines[i]) == w && !High(lines[i][|lines[i]| - 1])
    ensures JsonWidth(Ended(lines)) == |lines| * (w + 2)
    ensures Ended(lines) != [] ==> Ended(lines)[|Ended(lines)| - 1] == 0x0A
  {
    hide JsonWidth;
    if lines == [] {
      EmptyWidth();
    } else {
      EndedWidth(lines[1..], w);
      WidthConcat(lines[0], [0x0A]);
      OneWidth(0x0A);
      WidthConcat(lines[0] + [0x0A], Ended(lines[1..]));
      assert |lines| * (w + 2) == (|lines| - 1) * (w + 2) + (w + 2);
    }
  }

  function EmojiTexts(): seq<Text> { AllMarked(28) + [EmojiLine()] }

  lemma EmojiTextsFacts()
    ensures Distinct(EmojiTexts()) && forall t | t in EmojiTexts() :: Plain(t)
    ensures |EmojiTexts()| == 29 && LineSize(EmojiTexts()) == 3509
  {
    hide LineSize;
    EqualLines(EmojiTexts(), 120);
    assert EmojiLine()[118] == 0xD83D;
    assert forall i | 0 <= i < 28 :: Marked(i)[118] != 0xD83D;
    forall u | u in EmojiLine()
      ensures !IsSpace(u)
    {
    }
  }

  lemma EmojiDigest()
    ensures Digest(Headings(EmojiTexts())) == Ended(AllMarked(28)) + EmojiLine()
  {
    hide LineSize, Join, EmojiLine, AllMarked, Headings, DigestLines, Distinct, Plain;
    var texts := EmojiTexts();
    EmojiTextsFacts();
    PrefixSize(texts[..28], texts);
    HeadingsDigest(texts);
    JoinSize(texts);
    JoinSnoc(AllMarked(28), EmojiLine());
  }

  /** An instance: nothing was interacted with, and the snapshot of this page is one
      character too long; its cut leaves half of the emoji, and the snapshot is sent
      five characters over the limit. */
  lemma OverLimit()
    ensures Length(Captured([], Headings(EmojiTexts()))) == MAX_SNAPSHOT_CHARS + 5
  {
    hide JsonWidth, Ended, Digest, Marked, AllMarked, HasMarker, Headings, EmojiLine, ChainLength, Sum;
    var page := Headings(EmojiTexts());
    EmojiDigest();
    EmojiWidth();
    NoMarker(EmojiTexts());
    NoChain();
    EmojiCut(Digest(page));
  }

  lemma NoChain()
    ensures ChainLength([], MAX_ANCHOR_CHAIN) == 0 && Sum([]) == 0
  {
  }

  /** A digest ending on an emoji, cut by one unit. */
  lemma EmojiCut(digest: Text)
    requires |digest| >= 2 && High(digest[|digest| - 2]) && Low(digest[|digest| - 1])
    ensures JsonWidth(digest[..|digest| - 1]) == JsonWidth(digest) + 4
  {
    hide JsonWidth;
    var n := |digest| - 1;
    CutWidth(digest, n);
    assert digest[n + 1..] == [];
    EmptyWidth();
  }

  lemma NoMarker(texts: seq<Text>)
    ensures !HasMarker(Headings(texts))
  {
  }

  lemma EmojiWidth()
    ensures JsonWidth(Ended(AllMarked(28)) + EmojiLine()) == 6957
  {
    hide JsonWidth, Ended;
    forall i | 0 <= i < 28
      ensures JsonWidth(AllMarked(28)[i]) == 239
    {
      MarkedWidth(i);
    }
    EndedWidth(AllMarked(28), 239);
    EmojiLineWidth();
    WidthConcat(Ended(AllMarked(28)), EmojiLine());
  }
}
