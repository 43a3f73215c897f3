/**
 The budgeted walk of the page (`walkDOM`, `truncateTable`, `buildRowNode`,
 `captureViewportDOM`): one node counter shared by three mutually recursive
 methods, against the same walk with no budget.
 */
module DomWalk {
  import opened Common

  const MAX_TABLE_ROWS := 50
  const MAX_TREE_DEPTH := 30
  const MAX_NODE_COUNT := 3000

  datatype Tag = Table | THead | TFoot | TBody | TR | Cell | Caption | ColGroup | Slot | OtherTag

  /** An element of the page, with what the browser says about it.
      `info` is what is extracted from it; `ignored`: an ignored tag or the hidden
      attribute; `styleHidden`: its computed style hides it; `onScreen`: its box
      meets the viewport; `shadow`: the children of its open shadow root, when it
      has one; `sized`: its box is not trivially small; `anchored`: it
      has text, a label, a test id or a role; `html`: it is an HTMLElement. */
  datatype Element = Element(
    info: string,
    tag: Tag,
    html: bool,
    ignored: bool,
    connected: bool,
    styleHidden: bool,
    sized: bool,
    onScreen: bool,
    anchored: bool,
    editableRoot: bool,
    hasShadow: bool,
    shadow: seq<Element>,
    children: seq<Element>)

  /** A captured node, or a marker: rows left out of a table, the snapshot capped. */
  datatype DomNode =
    | Node(info: string, tag: Tag, inShadow: bool, children: seq<DomNode>)
    | RowsLeftOut(count: nat)
    | Capped

  // ------------------------------------------------- the walk with no budget

  /** Elements the walk passes over whatever the budget. */
  predicate Skipped(e: Element, depth: nat) {
    || depth > MAX_TREE_DEPTH
    || e.ignored
    || (e.connected && e.styleHidden)
    || (e.children == [] && if e.sized then !e.onScreen else !e.anchored)
  }

  function InShadow(nodes: seq<DomNode>): (r: seq<DomNode>)
    ensures |r| == |nodes|
  {
    if nodes == [] then [] else
      (match nodes[0] case Node(i, t, _, cs) => [Node(i, t, true, cs)] case _ => [nodes[0]]) + InShadow(nodes[1..])
  }

  function FullWalk(e: Element, depth: nat): (nodes: seq<DomNode>)
    ensures |nodes| <= 1
    decreases e, 1
  {
    if Skipped(e, depth) then []
    else if e.tag == Table then [Node(e.info, Table, false, FullSections(e.children, 0, depth))]
    else if e.editableRoot then [Node(e.info, e.tag, false, [])]
    else [Node(e.info, e.tag, false, FullInside(e, depth + 1))]
  }

  /** The children: first those of the shadow root, then the light ones. */
  function FullInside(e: Element, depth: nat): seq<DomNode>
    decreases e, 0
  {
    (if e.hasShadow then FullShadow(e.shadow, depth) else []) + FullChildren(e.children, depth, e.hasShadow)
  }

  function FullShadow(es: seq<Element>, depth: nat): seq<DomNode>
    decreases es, 0
  {
    if es == [] then [] else InShadow(FullWalk(es[0], depth)) + FullShadow(es[1..], depth)
  }

  /** The light children; slots are left out when the shadow tree was walked. */
  function FullChildren(es: seq<Element>, depth: nat, pierced: bool): seq<DomNode>
    decreases es, 0
  {
    if es == [] then [] else
      FullChild(es[0], depth, pierced) + FullChildren(es[1..], depth, pierced)
  }

  function FullChild(e: Element, depth: nat, pierced: bool): seq<DomNode>
    decreases e, 2
  {
    if pierced && e.tag == Slot then [] else FullWalk(e, depth)
  }

  /** A body row that is shown while fewer than MAX_TABLE_ROWS are. */
  predicate Visible(row: Element) { row.tag == TR && !row.styleHidden && row.onScreen }

  predicate Counted(row: Element) { row.tag == TR && !row.styleHidden }

  /** The table's sections, `shown` body rows after the ones before them. */
  function FullSections(es: seq<Element>, shown: nat, depth: nat): seq<DomNode>
    decreases es, 0
  {
    if es == [] then [] else
      FullSection(es[0], shown, depth) + FullSections(es[1..], ShownAfterSection(es[0], shown), depth)
  }

  function FullSection(s: Element, shown: nat, depth: nat): seq<DomNode>
    decreases s, 1
  {
    if !s.html then []
    else match s.tag
      case THead => [Node(s.info, s.tag, false, FullHeadRows(s.children, MAX_TABLE_ROWS, depth + 2))]
      case TFoot => [Node(s.info, s.tag, false, FullHeadRows(s.children, MAX_TABLE_ROWS, depth + 2))]
      case TBody => [Node(s.info, s.tag, false, FullBodyRows(s.children, shown, depth + 2))]
      case TR => if Visible(s) && shown < MAX_TABLE_ROWS then [FullRow(s, depth + 2)] else []
      case Caption => [Node(s.info, s.tag, false, [])]
      case ColGroup => [Node(s.info, s.tag, false, [])]
      case _ => []
  }

  function ShownAfterSection(s: Element, shown: nat): nat {
    if !s.html then shown
    else if s.tag == TBody then ShownAfter(s.children, shown)
    else if s.tag == TR && Visible(s) && shown < MAX_TABLE_ROWS then shown + 1
    else shown
  }

  function ShownAfter(rows: seq<Element>, shown: nat): nat {
    if rows == [] then shown
    else ShownAfter(rows[1..], if Visible(rows[0]) && shown < MAX_TABLE_ROWS then shown + 1 else shown)
  }

  function FullHeadRows(rows: seq<Element>, left: nat, depth: nat): seq<DomNode>
    decreases rows, 0
  {
    if rows == [] || left == 0 then []
    else if rows[0].tag == TR then [FullRow(rows[0], depth)] + FullHeadRows(rows[1..], left - 1, depth)
    else FullHeadRows(rows[1..], left, depth)
  }

  function FullBodyRows(rows: seq<Element>, shown: nat, depth: nat): seq<DomNode>
    decreases rows, 0
  {
    if rows == [] then []
    else if Visible(rows[0]) && shown < MAX_TABLE_ROWS then
      [FullRow(rows[0], depth)] + FullBodyRows(rows[1..], shown + 1, depth)
    else FullBodyRows(rows[1..], shown, depth)
  }

  function FullRow(row: Element, depth: nat): DomNode
    decreases row, 0
  {
    Node(row.info, row.tag, false, FullCells(row.children, depth))
  }

  function FullCells(es: seq<Element>, depth: nat): seq<DomNode>
    decreases es, 0
  {
    if es == [] then [] else
      (if es[0].tag == Cell then [FullCell(es[0], depth)] else []) + FullCells(es[1..], depth)
  }

  function FullCell(cell: Element, depth: nat): DomNode
    decreases cell, 0
  {
    Node(cell.info, cell.tag, false, FullChildren(cell.children, depth + 1, false))
  }

  /** Body rows of the table that are not hidden, shown or not. */
  function BodyRows(es: seq<Element>): nat {
    if es == [] then 0 else BodyRowsOf(es[0]) + BodyRows(es[1..])
  }

  function BodyRowsOf(s: Element): nat {
    if !s.html then 0 else if s.tag == TBody then CountedRows(s.children) else if Counted(s) then 1 else 0
  }

  function CountedRows(rows: seq<Element>): nat {
    if rows == [] then 0 else (if Counted(rows[0]) then 1 else 0) + CountedRows(rows[1..])
  }

  // ------------------------------------------------------- the budget's cut

  /** Nodes of the forest, markers not counted. */
  function Size(f: seq<DomNode>): nat {
    if f == [] then 0 else (if f[0].Node? then 1 + Size(f[0].children) else 0) + Size(f[1..])
  }

  /** What a node carries besides its children. */
  datatype Mark = Mark(info: string, tag: Tag, inShadow: bool)

  /** What the nodes carry, in preorder. */
  ghost function Preorder(f: seq<DomNode>): seq<Mark> {
    if f == [] then [] else (if f[0].Node? then [Mark(f[0].info, f[0].tag, f[0].inShadow)] + Preorder(f[0].children) else []) + Preorder(f[1..])
  }


  /** The forest of the first `n` nodes in preorder, without markers. */
  ghost function Take(f: seq<DomNode>, n: nat): seq<DomNode>
    decreases f
  {
    if f == [] || n == 0 then []
    else match f[0]
      case Node(i, t, s, cs) => [Node(i, t, s, Take(cs, n - 1))] + Take(f[1..], Less(n - 1, Size(cs)))
      case _ => Take(f[1..], n)
  }

  /** The forest without its markers. */
  ghost function Real(f: seq<DomNode>): seq<DomNode> {
    if f == [] then [] else
      (match f[0] case Node(i, t, s, cs) => [Node(i, t, s, Real(cs))] case _ => []) + Real(f[1..])
  }

  lemma {:induction false} SizeConcat(f: seq<DomNode>, g: seq<DomNode>)
    ensures Size(f + g) == Size(f) + Size(g)
  {
    if f == [] { assert f + g == g; } else {
      assert (f + g)[1..] == f[1..] + g;
      SizeConcat(f[1..], g);
    }
  }

  lemma RealFirst(f: seq<DomNode>)
    requires f != []
    ensures Real(f) == Real([f[0]]) + Real(f[1..])
  {
    assert [f[0]][1..] == [];
  }

  lemma {:induction false} RealConcat(f: seq<DomNode>, g: seq<DomNode>)
    ensures Real(f + g) == Real(f) + Real(g)
  {
    if f == [] {
      assert f + g == g;
    } else {
      hide Real;
      assert (f + g)[1..] == f[1..] + g;
      RealFirst(f);
      RealFirst(f + g);
      RealConcat(f[1..], g);
    }
  }

  lemma {:induction false} TakeConcat(f: seq<DomNode>, g: seq<DomNode>, n: nat)
    ensures Take(f + g, n) == Take(f, n) + Take(g, Less(n, Size(f)))
    decreases |f|
  {
    if f == [] { assert f + g == g; } else if n > 0 {
      assert (f + g)[1..] == f[1..] + g;
      TakeConcat(f[1..], g, if f[0].Node? then Less(n - 1, Size(f[0].children)) else n);
    }
  }

  lemma {:induction false} SizeTake(f: seq<DomNode>, n: nat)
    ensures Size(Take(f, n)) == if n <= Size(f) then n else Size(f)
    decreases f
  {
    if f != [] && n > 0 {
      if f[0].Node? {
        SizeTake(f[0].children, n - 1);
        SizeTake(f[1..], Less(n - 1, Size(f[0].children)));
        var head := [Node(f[0].info, f[0].tag, f[0].inShadow, Take(f[0].children, n - 1))];
        SizeConcat(head, Take(f[1..], Less(n - 1, Size(f[0].children))));
        assert head[1..] == [];
      } else {
        SizeTake(f[1..], n);
      }
    }
  }

  lemma {:induction false} SizeReal(f: seq<DomNode>)
    ensures Size(Real(f)) == Size(f)
  {
    if f != [] {
      SizeReal(f[1..]);
      if f[0].Node? {
        SizeReal(f[0].children);
        assert Real(f)[1..] == Real(f[1..]);
      } else {
        assert Real(f) == Real(f[1..]);
      }
    }
  }

  lemma PreorderFirst(f: seq<DomNode>)
    requires f != []
    ensures Preorder(f) == Preorder([f[0]]) + Preorder(f[1..])
  {
    assert [f[0]][1..] == [];
  }

  lemma {:induction false} PreorderConcat(f: seq<DomNode>, g: seq<DomNode>)
    ensures Preorder(f + g) == Preorder(f) + Preorder(g)
  {
    if f == [] {
      assert f + g == g;
    } else {
      hide Preorder;
      assert (f + g)[1..] == f[1..] + g;
      PreorderFirst(f);
      PreorderFirst(f + g);
      PreorderConcat(f[1..], g);
    }
  }

  lemma {:induction false} PreorderSize(f: seq<DomNode>)
    ensures |Preorder(f)| == Size(f)
  {
    if f != [] {
      PreorderSize(f[1..]);
      if f[0].Node? { PreorderSize(f[0].children); }
    }
  }

  function Min(n: nat, m: nat): nat { if n <= m then n else m }

  lemma PrefixOfParts(x: Mark, p: seq<Mark>, q: seq<Mark>, n: nat)
    requires n > 0
    ensures [x] + p[..Min(n - 1, |p|)] + q[..Min(Less(n - 1, |p|), |q|)] == ([x] + p + q)[..Min(n, 1 + |p| + |q|)]
  {
  }

  lemma PreorderNode(node: DomNode)
    requires node.Node?
    ensures Preorder([node]) == [Mark(node.info, node.tag, node.inShadow)] + Preorder(node.children)
  {
    assert [node][1..] == [];
  }

  /** `Take` keeps exactly the first `n` nodes of the preorder. */
  lemma {:induction false} TakeIsPrefix(f: seq<DomNode>, n: nat)
    ensures |Preorder(f)| == Size(f)
    ensures Preorder(Take(f, n)) == Preorder(f)[..Min(n, Size(f))]
    decreases f
  {
    PreorderSize(f);
    if f != [] && n > 0 {
      if f[0].Node? {
        var kids, rest := f[0].children, f[1..];
        var left := Less(n - 1, Size(kids));
        PreorderSize(kids);
        PreorderSize(rest);
        TakeIsPrefix(kids, n - 1);
        TakeIsPrefix(rest, left);
        var head := Node(f[0].info, f[0].tag, f[0].inShadow, Take(kids, n - 1));
        PreorderConcat([head], Take(rest, left));
        PreorderNode(head);
        PrefixOfParts(Mark(f[0].info, f[0].tag, f[0].inShadow), Preorder(kids), Preorder(rest), n);
      } else {
        TakeIsPrefix(f[1..], n);
      }
    }
  }

  /** `got` is the forest `full` cut to `room` nodes, up to markers. */
  ghost predicate Cut(got: seq<DomNode>, full: seq<DomNode>, room: nat) {
    Real(got) == Take(full, room)
  }

  lemma CutSize(got: seq<DomNode>, full: seq<DomNode>, room: nat)
    requires Cut(got, full, room)
    ensures Size(got) == if room <= Size(full) then room else Size(full)
  {
    SizeReal(got);
    SizeTake(full, room);
  }

  lemma CutConcat(got: seq<DomNode>, full: seq<DomNode>, room: nat, more: seq<DomNode>, fullMore: seq<DomNode>)
    requires Cut(got, full, room) && Size(got) <= room && Cut(more, fullMore, room - Size(got))
    ensures Cut(got + more, full + fullMore, room) && Size(got + more) == Size(got) + Size(more)
  {
    hide Real, Take, Size;
    CutSize(got, full, room);
    RealConcat(got, more);
    SizeConcat(got, more);
    TakeConcat(full, fullMore, room);
    assert Less(room, Size(full)) == room - Size(got);
  }

  lemma CutNode(info: string, tag: Tag, inShadow: bool, got: seq<DomNode>, full: seq<DomNode>, room: nat)
    requires room > 0 && Cut(got, full, room - 1)
    ensures Cut([Node(info, tag, inShadow, got)], [Node(info, tag, inShadow, full)], room)
    ensures Size([Node(info, tag, inShadow, got)]) == 1 + Size(got)
  {
    var f, g := [Node(info, tag, inShadow, got)], [Node(info, tag, inShadow, full)];
    assert f[1..] == [] && g[1..] == [];
  }

  lemma {:induction false} CutShadow(got: seq<DomNode>, full: seq<DomNode>, room: nat)
    requires Cut(got, full, room) && |got| <= 1 && |full| <= 1
    ensures Cut(InShadow(got), InShadow(full), room) && Size(InShadow(got)) == Size(got)
  {
    if got != [] { assert got[1..] == []; assert InShadow(got)[1..] == []; }
    if full != [] { assert full[1..] == []; assert InShadow(full)[1..] == []; }
  }

  // ------------------------------------------------------------ the walk

  class NodeCounter {
    var count: nat
    var truncated: bool

    constructor ()
      ensures count == 0 && !truncated
    {
      count, truncated := 0, false;
    }
  }

  /** `got`, the forest of the nodes counted since `start`, is `full` cut to the
      room there was; if that left any node out, the counter says so. */
  ghost predicate Walked(got: seq<DomNode>, full: seq<DomNode>, start: nat, count: nat, truncated: bool) {
    && start <= count <= MAX_NODE_COUNT
    && count == start + Size(got)
    && Cut(got, full, MAX_NODE_COUNT - start)
    && (Size(full) > MAX_NODE_COUNT - start ==> truncated)
  }

  lemma WalkedNone(start: nat, truncated: bool)
    requires start <= MAX_NODE_COUNT
    ensures Walked([], [], start, start, truncated)
  {
  }

  /** One more piece, walked from where the counter stood at `middle`. */
  lemma WalkedMore(got: seq<DomNode>, full: seq<DomNode>, start: nat, middle: nat, truncatedThen: bool,
                   more: seq<DomNode>, fullMore: seq<DomNode>, count: nat, truncated: bool)
    requires Walked(got, full, start, middle, truncatedThen)
    requires Walked(more, fullMore, middle, count, truncated)
    requires truncatedThen ==> truncated
    ensures Walked(got + more, full + fullMore, start, count, truncated)
  {
    CutConcat(got, full, MAX_NODE_COUNT - start, more, fullMore);
    CutSize(got, full, MAX_NODE_COUNT - start);
    SizeConcat(full, fullMore);
  }

  /** At the cap the rest of the walk adds nothing. */
  lemma WalkedStop(got: seq<DomNode>, full: seq<DomNode>, start: nat, truncatedThen: bool, rest: seq<DomNode>)
    requires Walked(got, full, start, MAX_NODE_COUNT, truncatedThen)
    ensures Walked(got, full + rest, start, MAX_NODE_COUNT, true)
  {
    WalkedMore(got, full, start, MAX_NODE_COUNT, truncatedThen, [], rest, MAX_NODE_COUNT, true);
    assert got + [] == got;
  }

  /** A counted node around what was walked since. */
  lemma WalkedNode(info: string, tag: Tag, got: seq<DomNode>, full: seq<DomNode>, start: nat, count: nat, truncated: bool)
    requires start < MAX_NODE_COUNT && Walked(got, full, start + 1, count, truncated)
    ensures Walked([Node(info, tag, false, got)], [Node(info, tag, false, full)], start, count, truncated)
  {
    CutNode(info, tag, false, got, full, MAX_NODE_COUNT - start);
    assert [Node(info, tag, false, full)][1..] == [];
  }

  lemma WalkedShadow(got: seq<DomNode>, full: seq<DomNode>, start: nat, count: nat, truncated: bool)
    requires |got| <= 1 && |full| <= 1 && Walked(got, full, start, count, truncated)
    ensures Walked(InShadow(got), InShadow(full), start, count, truncated)
  {
    CutShadow(got, full, MAX_NODE_COUNT - start);
    if full != [] { assert full[1..] == [] && InShadow(full)[1..] == []; }
  }

  /** `walkDOM`: at most one node, none when the element is passed over. */
  method WalkDom(e: Element, depth: nat, counter: NodeCounter) returns (nodes: seq<DomNode>)
    requires counter.count <= MAX_NODE_COUNT
    modifies counter
    ensures |nodes| <= 1 && (forall n | n in nodes :: n.Node?)
    ensures Walked(nodes, FullWalk(e, depth), old(counter.count), counter.count, counter.truncated)
    ensures old(counter.truncated) ==> counter.truncated
    decreases e, 3
  {
    if depth > MAX_TREE_DEPTH {
      return [];
    }
    if counter.count >= MAX_NODE_COUNT {
      counter.truncated := true;
      return [];
    }
    if e.ignored || (e.connected && e.styleHidden) {
      return [];
    }
    if e.children == [] && (if e.sized then !e.onScreen else !e.anchored) {
      return [];
    }
    if e.tag == Table {
      var table, _, _ := TruncateTable(e, depth, counter);
      return [table];
    }
    counter.count := counter.count + 1;
    if e.editableRoot {
      WalkedNode(e.info, e.tag, [], [], old(counter.count), counter.count, counter.truncated);
      return [Node(e.info, e.tag, false, [])];
    }
    var children := WalkInside(e, depth + 1, counter);
    WalkedNode(e.info, e.tag, children, FullInside(e, depth + 1), old(counter.count), counter.count, counter.truncated);
    nodes := [Node(e.info, e.tag, false, children)];
  }

  /** The children: first those of the shadow root, then the light ones. */
  method WalkInside(e: Element, depth: nat, counter: NodeCounter) returns (children: seq<DomNode>)
    requires counter.count <= MAX_NODE_COUNT
    modifies counter
    ensures Walked(children, FullInside(e, depth), old(counter.count), counter.count, counter.truncated)
    ensures old(counter.truncated) ==> counter.truncated
    decreases e, 2
  {
    var pierced: seq<DomNode> := [];
    ghost var fullPierced: seq<DomNode> := [];
    if e.hasShadow {
      pierced := WalkShadow(e, depth, counter);
      fullPierced := FullShadow(e.shadow, depth);
    }
    ghost var middle, truncatedThen := counter.count, counter.truncated;
    var light := WalkChildren(e, depth, e.hasShadow, counter);
    WalkedMore(pierced, fullPierced, old(counter.count), middle, truncatedThen,
               light, FullChildren(e.children, depth, e.hasShadow), counter.count, counter.truncated);
    children := pierced + light;
  }

  lemma ShadowUnfold(es: seq<Element>, i: nat, depth: nat)
    requires i <= |es|
    ensures i == |es| ==> FullShadow(es[i..], depth) == []
    ensures i < |es| ==> FullShadow(es[i..], depth) == InShadow(FullWalk(es[i], depth)) + FullShadow(es[i + 1..], depth)
  {
    if i < |es| {
      assert es[i..][1..] == es[i + 1..];
    }
  }

  /** The loop over the children of the open shadow root. */
  method WalkShadow(e: Element, depth: nat, counter: NodeCounter) returns (children: seq<DomNode>)
    requires counter.count <= MAX_NODE_COUNT
    modifies counter
    ensures Walked(children, FullShadow(e.shadow, depth), old(counter.count), counter.count, counter.truncated)
    ensures old(counter.truncated) ==> counter.truncated
    decreases e, 1
  {
    hide FullShadow, FullWalk, FullRow, FullCells, FullCell, FullChild, FullSection, FullInside;
    hide Cut, Size, Real, Take;
    WalkedNone(counter.count, counter.truncated);
    children := [];
    ghost var done: seq<DomNode> := [];
    ghost var full := FullShadow(e.shadow, depth);
    assert e.shadow[0..] == e.shadow;
    for i := 0 to |e.shadow|
      invariant full == done + FullShadow(e.shadow[i..], depth)
      invariant Walked(children, done, old(counter.count), counter.count, counter.truncated)
      invariant old(counter.truncated) ==> counter.truncated
    {
      ShadowUnfold(e.shadow, i, depth);
      if counter.count >= MAX_NODE_COUNT {
        WalkedStop(children, done, old(counter.count), counter.truncated, FullShadow(e.shadow[i..], depth));
        counter.truncated := true;
        return;
      }
      ghost var middle, truncatedThen := counter.count, counter.truncated;
      var child := WalkDom(e.shadow[i], depth, counter);
      ghost var fullChild := FullWalk(e.shadow[i], depth);
      WalkedShadow(child, fullChild, middle, counter.count, counter.truncated);
      WalkedMore(children, done, old(counter.count), middle, truncatedThen,
                 InShadow(child), InShadow(fullChild), counter.count, counter.truncated);
      children := children + InShadow(child);
      done := done + InShadow(fullChild);
    }
    ShadowUnfold(e.shadow, |e.shadow|, depth);
    assert full == done;
  }

  method WalkChild(e: Element, depth: nat, pierced: bool, counter: NodeCounter) returns (nodes: seq<DomNode>)
    requires counter.count <= MAX_NODE_COUNT
    modifies counter
    ensures Walked(nodes, FullChild(e, depth, pierced), old(counter.count), counter.count, counter.truncated)
    ensures old(counter.truncated) ==> counter.truncated
    decreases e, 4
  {
    if pierced && e.tag == Slot {
      return [];
    }
    nodes := WalkDom(e, depth, counter);
  }

  /** The loop over the light children (all of them, in a table cell). */
  method WalkChildren(e: Element, depth: nat, pierced: bool, counter: NodeCounter) returns (children: seq<DomNode>)
    requires counter.count <= MAX_NODE_COUNT
    modifies counter
    ensures Walked(children, FullChildren(e.children, depth, pierced), old(counter.count), counter.count, counter.truncated)
    ensures old(counter.truncated) ==> counter.truncated
    decreases e, 1
  {
    hide FullWalk, FullRow, FullCells, FullCell, FullChild, FullSection, FullInside;
    hide Cut, Size, Real, Take;
    WalkedNone(counter.count, counter.truncated);
    children := [];
    ghost var done: seq<DomNode> := [];
    ghost var full := FullChildren(e.children, depth, pierced);
    for i := 0 to |e.children|
      invariant full == done + FullChildren(e.children[i..], depth, pierced)
      invariant Walked(children, done, old(counter.count), counter.count, counter.truncated)
      invariant old(counter.truncated) ==> counter.truncated
    {
      if counter.count >= MAX_NODE_COUNT {
        WalkedStop(children, done, old(counter.count), counter.truncated, FullChildren(e.children[i..], depth, pierced));
        counter.truncated := true;
        return;
      }
      assert e.children[i..][1..] == e.children[i + 1..];
      ghost var middle, truncatedThen := counter.count, counter.truncated;
      var child := WalkChild(e.children[i], depth, pierced, counter);
      ghost var fullChild := FullChild(e.children[i], depth, pierced);
      WalkedMore(children, done, old(counter.count), middle, truncatedThen,
                 child, fullChild, counter.count, counter.truncated);
      children := children + child;
      done := done + fullChild;
    }
    assert full == done;
  }

  /** `buildRowNode`: the row, its cells, and their children walked. */
  method BuildRowNode(row: Element, depth: nat, counter: NodeCounter) returns (node: DomNode)
    requires counter.count < MAX_NODE_COUNT
    modifies counter
    ensures node.Node? && node.tag == row.tag
    ensures Walked([node], [FullRow(row, depth)], old(counter.count), counter.count, counter.truncated)
    ensures old(counter.truncated) ==> counter.truncated
    decreases row, 2
  {
    counter.count := counter.count + 1;
    var cells := WalkCells(row, depth, counter);
    node := Node(row.info, row.tag, false, cells);
    WalkedNode(row.info, row.tag, cells, FullCells(row.children, depth), old(counter.count), counter.count, counter.truncated);
  }

  lemma CellsUnfold(es: seq<Element>, i: nat, depth: nat)
    requires i <= |es|
    ensures i == |es| ==> FullCells(es[i..], depth) == []
    ensures i < |es| ==> FullCells(es[i..], depth) ==
                         (if es[i].tag == Cell then [FullCell(es[i], depth)] else []) + FullCells(es[i + 1..], depth)
  {
    if i < |es| {
      assert es[i..][1..] == es[i + 1..];
    }
  }

  method WalkCells(row: Element, depth: nat, counter: NodeCounter) returns (cells: seq<DomNode>)
    requires counter.count <= MAX_NODE_COUNT
    modifies counter
    ensures Walked(cells, FullCells(row.children, depth), old(counter.count), counter.count, counter.truncated)
    ensures old(counter.truncated) ==> counter.truncated
    decreases row, 1
  {
    hide FullWalk, FullRow, FullCell, FullCells, FullChild, FullSection, FullInside;
    cells := [];
    ghost var done: seq<DomNode> := [];
    ghost var full := FullCells(row.children, depth);
    assert row.children[0..] == row.children;
    for i := 0 to |row.children|
      invariant full == done + FullCells(row.children[i..], depth)
      invariant Walked(cells, done, old(counter.count), counter.count, counter.truncated)
      invariant old(counter.truncated) ==> counter.truncated
    {
      CellsUnfold(row.children, i, depth);
      if row.children[i].tag == Cell {
        if counter.count >= MAX_NODE_COUNT {
          WalkedStop(cells, done, old(counter.count), counter.truncated, FullCells(row.children[i..], depth));
          counter.truncated := true;
          return;
        }
        ghost var middle, truncatedThen := counter.count, counter.truncated;
        var cell := WalkCell(row.children[i], depth, counter);
        ghost var fullCell := [FullCell(row.children[i], depth)];
        WalkedMore(cells, done, old(counter.count), middle, truncatedThen, [cell], fullCell, counter.count, counter.truncated);
        cells := cells + [cell];
        done := done + fullCell;
      }
    }
    CellsUnfold(row.children, |row.children|, depth);
    assert full == done;
  }

  method WalkCell(cell: Element, depth: nat, counter: NodeCounter) returns (node: DomNode)
    requires counter.count < MAX_NODE_COUNT
    modifies counter
    ensures Walked([node], [FullCell(cell, depth)], old(counter.count), counter.count, counter.truncated)
    ensures old(counter.truncated) ==> counter.truncated
    decreases cell, 2
  {
    counter.count := counter.count + 1;
    var children := WalkChildren(cell, depth + 1, false, counter);
    node := Node(cell.info, cell.tag, false, children);
    WalkedNode(cell.info, cell.tag, children, FullChildren(cell.children, depth + 1, false),
               old(counter.count), counter.count, counter.truncated);
  }

  // ------------------------------------------------------------- the table

  /** The shown body rows counted so far, against those the full walk would show:
      the same until the cap is reached. */
  ghost predicate InStep(shown: nat, fullShown: nat, count: nat) {
    shown <= fullShown && (count < MAX_NODE_COUNT ==> shown == fullShown)
  }

  ghost function FullBodyRow(row: Element, shown: nat, depth: nat): seq<DomNode> {
    if Visible(row) && shown < MAX_TABLE_ROWS then [FullRow(row, depth)] else []
  }

  lemma BodyRowsUnfold(rows: seq<Element>, i: nat, shown: nat, depth: nat)
    requires i < |rows|
    ensures FullBodyRows(rows[i..], shown, depth) ==
            FullBodyRow(rows[i], shown, depth) + FullBodyRows(rows[i + 1..], shown + |FullBodyRow(rows[i], shown, depth)|, depth)
    ensures ShownAfter(rows[i..], shown) == ShownAfter(rows[i + 1..], shown + |FullBodyRow(rows[i], shown, depth)|)
    ensures CountedRows(rows[i..]) == (if Counted(rows[i]) then 1 else 0) + CountedRows(rows[i + 1..])
  {
    assert rows[i..][1..] == rows[i + 1..];
  }

  lemma NoBodyRows(rows: seq<Element>, shown: nat, depth: nat)
    ensures FullBodyRows(rows[|rows|..], shown, depth) == [] && ShownAfter(rows[|rows|..], shown) == shown
    ensures CountedRows(rows[|rows|..]) == 0
  {
  }

  /** The shared handling of a body row: counted unless hidden, captured while there is room. */
  method BodyRow(row: Element, depth: nat, shown: nat, ghost fullShown: nat, counter: NodeCounter)
    returns (nodes: seq<DomNode>, counted: nat)
    requires counter.count <= MAX_NODE_COUNT && InStep(shown, fullShown, counter.count)
    modifies counter
    ensures Walked(nodes, FullBodyRow(row, fullShown, depth), old(counter.count), counter.count, counter.truncated)
    ensures old(counter.truncated) ==> counter.truncated
    ensures InStep(shown + |nodes|, fullShown + |FullBodyRow(row, fullShown, depth)|, counter.count)
    ensures counted == (if Counted(row) then 1 else 0) && |nodes| <= counted
    ensures forall n | n in nodes :: n.Node? && n.tag == TR
    decreases row, 3
  {
    if row.tag != TR || row.styleHidden {
      return [], 0;
    }
    counted := 1;
    nodes := [];
    if shown < MAX_TABLE_ROWS && row.onScreen {
      if counter.count >= MAX_NODE_COUNT {
        counter.truncated := true;
      } else {
        var node := BuildRowNode(row, depth, counter);
        nodes := [node];
      }
    }
  }

  /** The rows of a `<tbody>`. */
  method WalkBodyRows(section: Element, depth: nat, shown: nat, ghost fullShown: nat, counter: NodeCounter)
    returns (rows: seq<DomNode>, counted: nat)
    requires counter.count <= MAX_NODE_COUNT && InStep(shown, fullShown, counter.count)
    modifies counter
    ensures Walked(rows, FullBodyRows(section.children, fullShown, depth), old(counter.count), counter.count, counter.truncated)
    ensures old(counter.truncated) ==> counter.truncated
    ensures InStep(shown + |rows|, ShownAfter(section.children, fullShown), counter.count)
    ensures counted == CountedRows(section.children) && |rows| <= counted
    decreases section, 1
  {
    hide FullWalk, FullRow, FullCells, FullCell, FullChild, FullSection, FullInside, FullBodyRow;
    hide FullBodyRows, ShownAfter, CountedRows, Counted;
    hide Cut, Size, Real, Take;
    WalkedNone(counter.count, counter.truncated);
    rows, counted := [], 0;
    ghost var done: seq<DomNode> := [];
    ghost var full := FullBodyRows(section.children, fullShown, depth);
    ghost var soFar: nat := fullShown;
    assert section.children[0..] == section.children;
    for i := 0 to |section.children|
      invariant full == done + FullBodyRows(section.children[i..], soFar, depth)
      invariant ShownAfter(section.children, fullShown) == ShownAfter(section.children[i..], soFar)
      invariant CountedRows(section.children) == counted + CountedRows(section.children[i..])
      invariant Walked(rows, done, old(counter.count), counter.count, counter.truncated)
      invariant old(counter.truncated) ==> counter.truncated
      invariant InStep(shown + |rows|, soFar, counter.count) && |rows| <= counted
    {
      var row := section.children[i];
      BodyRowsUnfold(section.children, i, soFar, depth);
      ghost var middle, truncatedThen := counter.count, counter.truncated;
      var nodes, n := BodyRow(row, depth, shown + |rows|, soFar, counter);
      ghost var fullRow := FullBodyRow(row, soFar, depth);
      WalkedMore(rows, done, old(counter.count), middle, truncatedThen, nodes, fullRow, counter.count, counter.truncated);
      rows, counted := rows + nodes, counted + n;
      done, soFar := done + fullRow, soFar + |fullRow|;
    }
    NoBodyRows(section.children, soFar, depth);
    assert full == done;
  }

  /** The rows of a `<thead>` or `<tfoot>`. */
  method HeadRows(section: Element, depth: nat, counter: NodeCounter) returns (rows: seq<DomNode>)
    requires counter.count <= MAX_NODE_COUNT
    modifies counter
    ensures Walked(rows, FullHeadRows(section.children, MAX_TABLE_ROWS, depth), old(counter.count), counter.count, counter.truncated)
    ensures old(counter.truncated) ==> counter.truncated
    decreases section, 1
  {
    hide FullWalk, FullRow, FullCells, FullCell, FullChild, FullSection, FullInside;
    rows := [];
    ghost var done: seq<DomNode> := [];
    ghost var full := FullHeadRows(section.children, MAX_TABLE_ROWS, depth);
    for i := 0 to |section.children|
      invariant |rows| <= MAX_TABLE_ROWS
      invariant full == done + FullHeadRows(section.children[i..], MAX_TABLE_ROWS - |rows|, depth)
      invariant Walked(rows, done, old(counter.count), counter.count, counter.truncated)
      invariant old(counter.truncated) ==> counter.truncated
    {
      var row := section.children[i];
      assert section.children[i..][1..] == section.children[i + 1..];
      if row.tag == TR {
        if |rows| >= MAX_TABLE_ROWS {
          assert full == done;
          return;
        }
        if counter.count >= MAX_NODE_COUNT {
          WalkedStop(rows, done, old(counter.count), counter.truncated, FullHeadRows(section.children[i..], MAX_TABLE_ROWS - |rows|, depth));
          counter.truncated := true;
          return;
        }
        ghost var middle, truncatedThen := counter.count, counter.truncated;
        var node := BuildRowNode(row, depth, counter);
        WalkedMore(rows, done, old(counter.count), middle, truncatedThen, [node], [FullRow(row, depth)], counter.count, counter.truncated);
        rows := rows + [node];
        done := done + [FullRow(row, depth)];
      }
    }
    assert full == done;
  }

  lemma {:induction false} ShownGrows(rows: seq<Element>, shown: nat)
    ensures ShownAfter(rows, shown) >= shown
  {
    if rows != [] { ShownGrows(rows[1..], if Visible(rows[0]) && shown < MAX_TABLE_ROWS then shown + 1 else shown); }
  }

  method HeadSection(s: Element, depth: nat, counter: NodeCounter) returns (node: DomNode)
    requires counter.count < MAX_NODE_COUNT
    modifies counter
    ensures Walked([node], [Node(s.info, s.tag, false, FullHeadRows(s.children, MAX_TABLE_ROWS, depth))],
                   old(counter.count), counter.count, counter.truncated)
    ensures old(counter.truncated) ==> counter.truncated
    ensures node.Node? && node.tag == s.tag
    decreases s, 2
  {
    counter.count := counter.count + 1;
    var rows := HeadRows(s, depth, counter);
    node := Node(s.info, s.tag, false, rows);
    WalkedNode(s.info, s.tag, rows, FullHeadRows(s.children, MAX_TABLE_ROWS, depth), old(counter.count), counter.count, counter.truncated);
  }

  method BodySection(s: Element, depth: nat, shown: nat, ghost fullShown: nat, counter: NodeCounter)
    returns (node: DomNode, counted: nat)
    requires counter.count < MAX_NODE_COUNT && InStep(shown, fullShown, counter.count)
    modifies counter
    ensures Walked([node], [Node(s.info, s.tag, false, FullBodyRows(s.children, fullShown, depth))],
                   old(counter.count), counter.count, counter.truncated)
    ensures old(counter.truncated) ==> counter.truncated
    ensures node.Node? && node.tag == s.tag
    ensures InStep(shown + |node.children|, ShownAfter(s.children, fullShown), counter.count)
    ensures counted == CountedRows(s.children) && |node.children| <= counted
    decreases s, 2
  {
    counter.count := counter.count + 1;
    var rows;
    rows, counted := WalkBodyRows(s, depth, shown, fullShown, counter);
    node := Node(s.info, s.tag, false, rows);
    WalkedNode(s.info, s.tag, rows, FullBodyRows(s.children, fullShown, depth), old(counter.count), counter.count, counter.truncated);
  }

  lemma RowsShownOne(node: DomNode)
    requires node.Node?
    ensures RowsShown([node]) == if node.tag == TBody then |node.children| else if node.tag == TR then 1 else 0
  {
    assert [node][1..] == [];
  }

  /** One section, with room for its node. */
  method WalkSection(s: Element, depth: nat, shown: nat, ghost fullShown: nat, counter: NodeCounter)
    returns (nodes: seq<DomNode>, rows: nat, counted: nat)
    requires s.html && counter.count < MAX_NODE_COUNT && InStep(shown, fullShown, counter.count)
    modifies counter
    ensures Walked(nodes, FullSection(s, fullShown, depth), old(counter.count), counter.count, counter.truncated)
    ensures old(counter.truncated) ==> counter.truncated
    ensures InStep(shown + rows, ShownAfterSection(s, fullShown), counter.count)
    ensures counted == BodyRowsOf(s) && rows == RowsShown(nodes) <= counted
    decreases s, 4
  {
    nodes, rows, counted := [], 0, 0;
    match s.tag {
      case THead | TFoot =>
        var node := HeadSection(s, depth + 2, counter);
        nodes := [node];
        RowsShownOne(node);
      case TBody =>
        var node;
        node, counted := BodySection(s, depth + 2, shown, fullShown, counter);
        nodes, rows := [node], |node.children|;
        RowsShownOne(node);
      case TR =>
        nodes, counted := BodyRow(s, depth + 2, shown, fullShown, counter);
        rows := |nodes|;
        if nodes != [] {
          assert nodes == [nodes[0]];
          RowsShownOne(nodes[0]);
        }
      case Caption | ColGroup =>
        counter.count := counter.count + 1;
        WalkedNode(s.info, s.tag, [], [], old(counter.count), counter.count, counter.truncated);
        nodes := [Node(s.info, s.tag, false, [])];
        RowsShownOne(nodes[0]);
      case _ =>
    }
  }

  lemma SectionsUnfold(es: seq<Element>, i: nat, shown: nat, depth: nat)
    requires i < |es|
    ensures FullSections(es[i..], shown, depth) ==
            FullSection(es[i], shown, depth) + FullSections(es[i + 1..], ShownAfterSection(es[i], shown), depth)
    ensures BodyRows(es[i..]) == BodyRowsOf(es[i]) + BodyRows(es[i + 1..])
    ensures ShownAfterSection(es[i], shown) >= shown
  {
    assert es[i..][1..] == es[i + 1..];
    ShownGrows(es[i].children, shown);
  }

  /** A child that is no HTMLElement is passed over. */
  method WalkSectionOrSkip(s: Element, depth: nat, shown: nat, ghost fullShown: nat, counter: NodeCounter)
    returns (nodes: seq<DomNode>, rows: nat, counted: nat)
    requires counter.count <= MAX_NODE_COUNT && (s.html ==> counter.count < MAX_NODE_COUNT)
    requires InStep(shown, fullShown, counter.count)
    modifies counter
    ensures Walked(nodes, FullSection(s, fullShown, depth), old(counter.count), counter.count, counter.truncated)
    ensures old(counter.truncated) ==> counter.truncated
    ensures InStep(shown + rows, ShownAfterSection(s, fullShown), counter.count)
    ensures counted == BodyRowsOf(s) && rows == RowsShown(nodes) <= counted
    ensures !s.html ==> nodes == [] && counted == 0
    decreases s, 5
  {
    if !s.html {
      return [], 0, 0;
    }
    nodes, rows, counted := WalkSection(s, depth, shown, fullShown, counter);
  }

  /** The loop over the table's sections; those it finds no room for are not counted. */
  method WalkSections(e: Element, depth: nat, counter: NodeCounter)
    returns (sections: seq<DomNode>, shown: nat, total: nat)
    requires counter.count <= MAX_NODE_COUNT
    modifies counter
    ensures Walked(sections, FullSections(e.children, 0, depth), old(counter.count), counter.count, counter.truncated)
    ensures old(counter.truncated) ==> counter.truncated
    ensures shown == RowsShown(sections) <= total
    ensures TotalOf(total, BodyRows(e.children), counter.count)
    decreases e, 1
  {
    hide FullWalk, FullRow, FullCells, FullCell, FullChild, FullSection, FullInside;
    sections, shown, total := [], 0, 0;
    ghost var done: seq<DomNode> := [];
    ghost var full := FullSections(e.children, 0, depth);
    ghost var soFar: nat, rowsSoFar: nat := 0, 0;
    for i := 0 to |e.children|
      invariant full == done + FullSections(e.children[i..], soFar, depth)
      invariant BodyRows(e.children) == rowsSoFar + BodyRows(e.children[i..])
      invariant Walked(sections, done, old(counter.count), counter.count, counter.truncated)
      invariant old(counter.truncated) ==> counter.truncated
      invariant InStep(shown, soFar, counter.count) && TotalOf(total, rowsSoFar, counter.count)
      invariant shown == RowsShown(sections) <= total
    {
      var s := e.children[i];
      SectionsUnfold(e.children, i, soFar, depth);
      ghost var piece := FullSection(s, soFar, depth);
      if s.html && counter.count >= MAX_NODE_COUNT {
        WalkedStop(sections, done, old(counter.count), counter.truncated, piece);
        counter.truncated := true;
      } else {
        ghost var middle, truncatedThen := counter.count, counter.truncated;
        var nodes, rows, counted := WalkSectionOrSkip(s, depth, shown, soFar, counter);
        WalkedMore(sections, done, old(counter.count), middle, truncatedThen, nodes, piece, counter.count, counter.truncated);
        RowsShownConcat(sections, nodes);
        sections, shown, total := sections + nodes, shown + rows, total + counted;
      }
      done, soFar, rowsSoFar := done + piece, ShownAfterSection(s, soFar), rowsSoFar + BodyRowsOf(s);
    }
    assert full == done;
  }

  /** All the rows were counted, or the cap was reached. */
  ghost predicate TotalOf(total: nat, rows: nat, count: nat) {
    total <= rows && (count < MAX_NODE_COUNT ==> total == rows)
  }

  /** Body rows among a table's captured children. */
  function RowsShown(nodes: seq<DomNode>): nat {
    if nodes == [] then 0 else
      (if nodes[0].Node? && nodes[0].tag == TBody then |nodes[0].children|
       else if nodes[0].Node? && nodes[0].tag == TR then 1 else 0) + RowsShown(nodes[1..])
  }

  lemma {:induction false} RowsShownConcat(f: seq<DomNode>, g: seq<DomNode>)
    ensures RowsShown(f + g) == RowsShown(f) + RowsShown(g)
  {
    if f == [] { assert f + g == g; } else {
      assert (f + g)[1..] == f[1..] + g;
      RowsShownConcat(f[1..], g);
    }
  }

  /** `truncateTable`: head and foot rows, body rows while fewer than the limit
      are shown, and a marker for the body rows it counted and left out (those
      of sections it found no room for are not counted). */
  method TruncateTable(e: Element, depth: nat, counter: NodeCounter) 
    returns (node: DomNode, ghost sections: seq<DomNode>, ghost counted: nat)
    requires counter.count < MAX_NODE_COUNT
    modifies counter
    ensures node.Node?
    ensures Walked([node], [Node(e.info, Table, false, FullSections(e.children, 0, depth))], old(counter.count), counter.count, counter.truncated)
    ensures old(counter.truncated) ==> counter.truncated
    ensures TotalOf(counted, BodyRows(e.children), counter.count)
    ensures RowsShown(sections) <= counted
    ensures node.children == sections + if RowsShown(sections) == counted then [] else [RowsLeftOut(counted - RowsShown(sections))]
    decreases e, 2
  {
    counter.count := counter.count + 1;
    var captured, shown, total := WalkSections(e, depth, counter);
    sections, counted := captured, total;
    MarkerIsFree(captured, shown, total);
    var children := captured + RowsMarker(shown, total);
    node := Node(e.info, Table, false, children);
    WalkedNode(e.info, Table, children, FullSections(e.children, 0, depth), old(counter.count), counter.count, counter.truncated);
  }

  /** The marker for the rows counted and not shown. */
  function RowsMarker(shown: nat, total: nat): seq<DomNode> {
    if shown < total then [RowsLeftOut(total - shown)] else []
  }

  lemma MarkerIsFree(nodes: seq<DomNode>, shown: nat, total: nat)
    ensures Real(nodes + RowsMarker(shown, total)) == Real(nodes) && Size(nodes + RowsMarker(shown, total)) == Size(nodes)
  {
    RealConcat(nodes, RowsMarker(shown, total));
    SizeConcat(nodes, RowsMarker(shown, total));
    assert shown < total ==> RowsMarker(shown, total)[1..] == [];
  }

  // ------------------------------------------------ what the walk captures

  /** How the walk comes to an element: on the page itself (a table included), as a
      table's section, row or cell, or as its caption or column group. */
  datatype Role = Plain | Section | TableRow | TableCell | Bare

  /** An element the walk stops at; `pierced`: it is a child of an open shadow root. */
  datatype Stop = Stop(e: Element, role: Role, depth: nat, pierced: bool)

  function MarkOf(s: Stop): Mark { Mark(s.e.info, s.e.tag, s.pierced) }

  /** An element of the page is kept at most 30 levels down, when it is neither ignored nor
      hidden and, without light children, is on screen if it has a box and says something if not. */
  predicate Kept(e: Element, depth: nat) {
    && depth <= 30 && !e.ignored && (e.connected ==> !e.styleHidden)
    && (e.children == [] && e.sized ==> e.onScreen) && (e.children == [] && !e.sized ==> e.anchored)
  }

  predicate ShownRow(e: Element) { e.tag == TR && !e.styleHidden && e.onScreen }

  /** From a captured element the walk goes on to: its shadow children; its light ones, but
      for slots when it has a shadow root; nowhere from an editable one; from a table to
      sections, shown loose rows, captions and column groups; from a head or foot to its
      rows, from a body to those shown; from a row to its cells, from a cell to its children. */
  predicate Leads(p: Stop, c: Stop) {
    match p.role
    case Plain =>
      if p.e.tag == Table then
        && c.e in p.e.children && c.e.html && !c.pierced && c.depth == p.depth + 2
        && match c.e.tag
           case THead => c.role == Section
           case TFoot => c.role == Section
           case TBody => c.role == Section
           case TR => c.role == TableRow && ShownRow(c.e)
           case Caption => c.role == Bare
           case ColGroup => c.role == Bare
           case _ => false
      else
        && !p.e.editableRoot && c.role == Plain && c.depth == p.depth + 1 && Kept(c.e, c.depth)
        && (if c.pierced then p.e.hasShadow && c.e in p.e.shadow
            else c.e in p.e.children && (p.e.hasShadow ==> c.e.tag != Slot))
    case Section =>
      && c.e in p.e.children && c.role == TableRow && c.depth == p.depth && !c.pierced
      && c.e.tag == TR && (p.e.tag == TBody ==> ShownRow(c.e))
    case TableRow => c.e in p.e.children && c.e.tag == Cell && c.role == TableCell && c.depth == p.depth && !c.pierced
    case TableCell => c.e in p.e.children && c.role == Plain && c.depth == p.depth + 1 && !c.pierced && Kept(c.e, c.depth)
    case Bare => false
  }

  /** The way from the first stop to the last. */
  ghost predicate Path(stops: seq<Stop>) {
    && stops != []
    && forall i, j | 0 <= i && j == i + 1 && j < |stops| :: Leads(stops[i], stops[j])
  }

  /** A path from the page's body to what carries `x`. */
  ghost predicate Reaches(body: seq<Element>, stops: seq<Stop>, x: Mark) {
    && stops != [] && Path(stops) && stops[0].e in body && stops[0].role == Plain && stops[0].depth == 0 && !stops[0].pierced
    && Kept(stops[0].e, 0) && MarkOf(stops[|stops| - 1]) == x
  }

  lemma PathOn(p: Stop, rest: seq<Stop>)
    requires Path(rest) && Leads(p, rest[0])
    ensures Path([p] + rest)
  {
    hide Leads;
    var all := [p] + rest;
    forall i, j | 0 <= i && j == i + 1 && j < |all|
      ensures Leads(all[i], all[j])
    {
      if i > 0 { assert all[i] == rest[i - 1] && all[j] == rest[j - 1]; }
    }
  }

  lemma PathTail(stops: seq<Stop>)
    requires Path(stops) && |stops| > 1
    ensures Path(stops[1..]) && Leads(stops[0], stops[1])
  {
    hide Leads;
    var rest := stops[1..];
    forall i, j | 0 <= i && j == i + 1 && j < |rest|
      ensures Leads(rest[i], rest[j])
    {
      assert rest[i] == stops[i + 1] && rest[j] == stops[j + 1];
    }
  }

  // The marks of each piece of the walk.

  function Emitted(e: Element, depth: nat, pierced: bool): seq<DomNode> {
    if pierced then InShadow(FullWalk(e, depth)) else FullWalk(e, depth)
  }

  /** What is below a captured element. */
  function Below(e: Element, depth: nat): seq<DomNode> {
    if e.tag == Table then FullSections(e.children, 0, depth)
    else if e.editableRoot then []
    else FullInside(e, depth + 1)
  }

  lemma EmittedMarks(e: Element, depth: nat, pierced: bool)
    ensures Preorder(Emitted(e, depth, pierced)) ==
            if Kept(e, depth) then [Mark(e.info, e.tag, pierced)] + Preorder(Below(e, depth)) else []
  {
    hide FullSections, FullInside;
    if Kept(e, depth) {
      var node := Node(e.info, e.tag, pierced, Below(e, depth));
      assert FullWalk(e, depth) == [node.(inShadow := false)];
      assert [node.(inShadow := false)][1..] == [] && InShadow([]) == [];
      assert Emitted(e, depth, pierced) == [node];
      PreorderNode(node);
    } else {
      assert FullWalk(e, depth) == [];
    }
  }

  lemma FirstOrRest(f: seq<DomNode>, g: seq<DomNode>, x: Mark)
    ensures x in Preorder(f + g) <==> x in Preorder(f) || x in Preorder(g)
  {
    PreorderConcat(f, g);
  }

  lemma NodeMarks(i: string, t: Tag, cs: seq<DomNode>)
    ensures Preorder([Node(i, t, false, cs)]) == [Mark(i, t, false)] + Preorder(cs)
  {
    PreorderNode(Node(i, t, false, cs));
  }

  // Everything captured was reached.

  lemma {:induction false} PlainIsReached(s: Stop, x: Mark) returns (stops: seq<Stop>)
    requires s.role == Plain && x in Preorder(Emitted(s.e, s.depth, s.pierced))
    ensures Kept(s.e, s.depth) && stops != [] && Path(stops) && stops[0] == s && MarkOf(stops[|stops| - 1]) == x
    decreases s.e, 2, 0
  {
    hide Leads, Emitted, FullSections, FullShadow, FullChildren;
    EmittedMarks(s.e, s.depth, s.pierced);
    if x == MarkOf(s) {
      stops := [s];
    } else if s.e.tag == Table {
      var rest := SectionIsReached(s, 0, 0, x);
      PathOn(s, rest);
      stops := [s] + rest;
    } else {
      var rest := ChildIsReached(s, x);
      PathOn(s, rest);
      stops := [s] + rest;
    }
  }

  lemma {:induction false} ChildIsReached(s: Stop, x: Mark) returns (rest: seq<Stop>)
    requires s.role == Plain && s.e.tag != Table && !s.e.editableRoot && x in Preorder(FullInside(s.e, s.depth + 1))
    ensures Path(rest) && Leads(s, rest[0]) && MarkOf(rest[|rest| - 1]) == x
    decreases s.e, 1, |s.e.shadow| + |s.e.children| + 1
  {
    hide Leads, FullShadow, FullChildren, Preorder, Path;
    NoMarks();
    var shadow := if s.e.hasShadow then FullShadow(s.e.shadow, s.depth + 1) else [];
    FirstOrRest(shadow, FullChildren(s.e.children, s.depth + 1, s.e.hasShadow), x);
    assert s.e.children[0..] == s.e.children && s.e.shadow[0..] == s.e.shadow;
    if x in Preorder(shadow) {
      rest := ShadowIsReached(s, 0, x);
    } else {
      rest := LightIsReached(s, 0, x);
    }
  }

  lemma {:induction false} ShadowIsReached(s: Stop, i: nat, x: Mark) returns (rest: seq<Stop>)
    requires s.role == Plain && s.e.tag != Table && !s.e.editableRoot && s.e.hasShadow && i <= |s.e.shadow|
    requires x in Preorder(FullShadow(s.e.shadow[i..], s.depth + 1))
    ensures Path(rest) && Leads(s, rest[0]) && MarkOf(rest[|rest| - 1]) == x
    decreases s.e, 1, |s.e.shadow| - i
  {
    hide Path;
    ShadowUnfold(s.e.shadow, i, s.depth + 1);
    if i < |s.e.shadow| {
      var c := Stop(s.e.shadow[i], Plain, s.depth + 1, true);
      FirstOrRest(Emitted(c.e, c.depth, true), FullShadow(s.e.shadow[i + 1..], s.depth + 1), x);
      if x in Preorder(Emitted(c.e, c.depth, true)) {
        rest := PlainIsReached(c, x);
      } else {
        rest := ShadowIsReached(s, i + 1, x);
      }
    }
  }

  predicate SkipsSlots(s: Stop) { s.role == Plain && s.e.hasShadow }

  lemma {:induction false} LightIsReached(s: Stop, i: nat, x: Mark) returns (rest: seq<Stop>)
    requires (s.role == Plain && s.e.tag != Table && !s.e.editableRoot) || s.role == TableCell
    requires i <= |s.e.children| && x in Preorder(FullChildren(s.e.children[i..], s.depth + 1, SkipsSlots(s)))
    ensures Path(rest) && Leads(s, rest[0]) && MarkOf(rest[|rest| - 1]) == x
    decreases s.e, 1, |s.e.children| - i
  {
    hide Path, Preorder, Leads, Kept;
    NoMarks();
    if i < |s.e.children| {
      var c := Stop(s.e.children[i], Plain, s.depth + 1, false);
      assert s.e.children[i..][1..] == s.e.children[i + 1..];
      FirstOrRest(FullChild(c.e, c.depth, SkipsSlots(s)), FullChildren(s.e.children[i + 1..], s.depth + 1, SkipsSlots(s)), x);
      if x in Preorder(FullChild(c.e, c.depth, SkipsSlots(s))) {
        rest := PlainIsReached(c, x);
        LightLeads(s, i);
      } else {
        rest := LightIsReached(s, i + 1, x);
      }
    }
  }

  lemma LightLeads(s: Stop, i: nat)
    requires (s.role == Plain && s.e.tag != Table && !s.e.editableRoot) || s.role == TableCell
    requires i < |s.e.children| && Kept(s.e.children[i], s.depth + 1) && (SkipsSlots(s) ==> s.e.children[i].tag != Slot)
    ensures Leads(s, Stop(s.e.children[i], Plain, s.depth + 1, false))
  {
    hide Kept;
  }

  lemma {:induction false} SectionIsReached(s: Stop, i: nat, shown: nat, x: Mark) returns (rest: seq<Stop>)
    requires s.role == Plain && s.e.tag == Table && i <= |s.e.children|
    requires x in Preorder(FullSections(s.e.children[i..], shown, s.depth))
    ensures Path(rest) && Leads(s, rest[0]) && MarkOf(rest[|rest| - 1]) == x
    decreases s.e, 1, |s.e.children| - i
  {
    hide Path, FullSection;
    if i < |s.e.children| {
      var c := s.e.children[i];
      assert s.e.children[i..][1..] == s.e.children[i + 1..];
      FirstOrRest(FullSection(c, shown, s.depth), FullSections(s.e.children[i + 1..], ShownAfterSection(c, shown), s.depth), x);
      if x in Preorder(FullSection(c, shown, s.depth)) {
        rest := OneSectionIsReached(s, c, shown, x);
      } else {
        rest := SectionIsReached(s, i + 1, ShownAfterSection(c, shown), x);
      }
    }
  }

  lemma {:induction false} OneSectionIsReached(s: Stop, c: Element, shown: nat, x: Mark) returns (rest: seq<Stop>)
    requires s.role == Plain && s.e.tag == Table && c in s.e.children
    requires x in Preorder(FullSection(c, shown, s.depth))
    ensures Path(rest) && Leads(s, rest[0]) && MarkOf(rest[|rest| - 1]) == x
    decreases c, 3, 0
  {
    hide FullHeadRows, FullBodyRows, Preorder;
    NoMarks();
    var d := s.depth + 2;
    if c.tag == TR {
      rest := RowIsReached(Stop(c, TableRow, d, false), x);
    } else if c.tag == Caption || c.tag == ColGroup {
      rest := [Stop(c, Bare, d, false)];
      NodeMarks(c.info, c.tag, []);
    } else {
      var t := Stop(c, Section, d, false);
      NodeMarks(c.info, c.tag, SectionRows(t, shown));
      rest := [t];
      if x != MarkOf(t) {
        rest := SectionRowIsReached(t, shown, x);
        PathOn(t, rest);
        rest := [t] + rest;
      }
    }
  }

  function SectionRows(t: Stop, shown: nat): seq<DomNode> {
    if t.e.tag == TBody then FullBodyRows(t.e.children, shown, t.depth) else FullHeadRows(t.e.children, MAX_TABLE_ROWS, t.depth)
  }

  lemma {:induction false} SectionRowIsReached(t: Stop, shown: nat, x: Mark) returns (rest: seq<Stop>)
    requires t.role == Section && x in Preorder(SectionRows(t, shown))
    ensures Path(rest) && Leads(t, rest[0]) && MarkOf(rest[|rest| - 1]) == x
    decreases t.e, 2, 0
  {
    hide FullHeadRows, FullBodyRows, Preorder, Path, Leads;
    assert t.e.children[0..] == t.e.children;
    if t.e.tag == TBody { rest := BodyRowIsReached(t, 0, shown, x); } else { rest := HeadRowIsReached(t, 0, MAX_TABLE_ROWS, x); }
  }

  lemma {:induction false} HeadRowIsReached(t: Stop, i: nat, left: nat, x: Mark) returns (rest: seq<Stop>)
    requires t.role == Section && t.e.tag != TBody && i <= |t.e.children|
    requires x in Preorder(FullHeadRows(t.e.children[i..], left, t.depth))
    ensures Path(rest) && Leads(t, rest[0]) && MarkOf(rest[|rest| - 1]) == x
    decreases t.e, 1, |t.e.children| - i
  {
    hide Path, FullRow, Leads, Preorder, Visible;
    NoMarks();
    if i < |t.e.children| && left > 0 {
      var c := Stop(t.e.children[i], TableRow, t.depth, false);
      assert t.e.children[i..][1..] == t.e.children[i + 1..];
      if c.e.tag == TR {
        FirstOrRest([FullRow(c.e, t.depth)], FullHeadRows(t.e.children[i + 1..], left - 1, t.depth), x);
        if x in Preorder([FullRow(c.e, t.depth)]) {
          rest := RowIsReached(c, x);
          HeadRowLeads(t, i);
        } else {
          rest := HeadRowIsReached(t, i + 1, left - 1, x);
        }
      } else {
        rest := HeadRowIsReached(t, i + 1, left, x);
      }
    }
  }

  lemma NoMarks()
    ensures Preorder([]) == []
  {
  }

  lemma HeadRowLeads(t: Stop, i: nat)
    requires t.role == Section && t.e.tag != TBody && i < |t.e.children| && t.e.children[i].tag == TR
    ensures Leads(t, Stop(t.e.children[i], TableRow, t.depth, false))
  {
  }

  lemma {:induction false} BodyRowIsReached(t: Stop, i: nat, shown: nat, x: Mark) returns (rest: seq<Stop>)
    requires t.role == Section && t.e.tag == TBody && i <= |t.e.children|
    requires x in Preorder(FullBodyRows(t.e.children[i..], shown, t.depth))
    ensures Path(rest) && Leads(t, rest[0]) && MarkOf(rest[|rest| - 1]) == x
    decreases t.e, 1, |t.e.children| - i
  {
    hide Path, FullRow;
    if i < |t.e.children| {
      var c := Stop(t.e.children[i], TableRow, t.depth, false);
      assert t.e.children[i..][1..] == t.e.children[i + 1..];
      if Visible(c.e) && shown < MAX_TABLE_ROWS {
        FirstOrRest([FullRow(c.e, t.depth)], FullBodyRows(t.e.children[i + 1..], shown + 1, t.depth), x);
        if x in Preorder([FullRow(c.e, t.depth)]) {
          rest := RowIsReached(c, x);
        } else {
          rest := BodyRowIsReached(t, i + 1, shown + 1, x);
        }
      } else {
        rest := BodyRowIsReached(t, i + 1, shown, x);
      }
    }
  }

  lemma {:induction false} RowIsReached(s: Stop, x: Mark) returns (stops: seq<Stop>)
    requires s.role == TableRow && !s.pierced && x in Preorder([FullRow(s.e, s.depth)])
    ensures Path(stops) && stops[0] == s && MarkOf(stops[|stops| - 1]) == x
    decreases s.e, 2, 0
  {
    hide Leads, FullCells;
    NodeMarks(s.e.info, s.e.tag, FullCells(s.e.children, s.depth));
    if x == MarkOf(s) {
      stops := [s];
    } else {
      assert s.e.children[0..] == s.e.children;
      var rest := CellIsReached(s, 0, x);
      PathOn(s, rest);
      stops := [s] + rest;
    }
  }

  lemma {:induction false} CellIsReached(s: Stop, i: nat, x: Mark) returns (rest: seq<Stop>)
    requires s.role == TableRow && i <= |s.e.children| && x in Preorder(FullCells(s.e.children[i..], s.depth))
    ensures Path(rest) && Leads(s, rest[0]) && MarkOf(rest[|rest| - 1]) == x
    decreases s.e, 1, |s.e.children| - i
  {
    hide FullCell, FullChildren, FullCells;
    CellsUnfold(s.e.children, i, s.depth);
    assert Preorder([]) == [];
    if i < |s.e.children| {
      var c := Stop(s.e.children[i], TableCell, s.depth, false);
      var first := if c.e.tag == Cell then [FullCell(c.e, s.depth)] else [];
      FirstOrRest(first, FullCells(s.e.children[i + 1..], s.depth), x);
      if x in Preorder(first) {
        rest := InCellIsReached(c, x);
      } else {
        rest := CellIsReached(s, i + 1, x);
      }
    }
  }

  lemma {:induction false} InCellIsReached(c: Stop, x: Mark) returns (stops: seq<Stop>)
    requires c.role == TableCell && !c.pierced && x in Preorder([FullCell(c.e, c.depth)])
    ensures Path(stops) && stops[0] == c && MarkOf(stops[|stops| - 1]) == x
    decreases c.e, 2, 0
  {
    hide Leads, FullChildren;
    NodeMarks(c.e.info, c.e.tag, FullChildren(c.e.children, c.depth + 1, false));
    if x == MarkOf(c) {
      stops := [c];
    } else {
      assert c.e.children[0..] == c.e.children;
      var rest := LightIsReached(c, 0, x);
      PathOn(c, rest);
      stops := [c] + rest;
    }
  }

  lemma {:induction false} PageIsReached(body: seq<Element>, i: nat, x: Mark) returns (stops: seq<Stop>)
    requires i <= |body| && x in Preorder(FullChildren(body[i..], 0, false))
    ensures Reaches(body, stops, x)
    decreases |body| - i
  {
    hide FullWalk, Path, Leads;
    if i < |body| {
      assert body[i..][1..] == body[i + 1..];
      FirstOrRest(FullChild(body[i], 0, false), FullChildren(body[i + 1..], 0, false), x);
      if x in Preorder(FullChild(body[i], 0, false)) {
        stops := PlainIsReached(Stop(body[i], Plain, 0, false), x);
      } else {
        stops := PageIsReached(body, i + 1, x);
      }
    }
  }

  // Everything reached is captured, in tables with no row too many.

  function ShownRows(rows: seq<Element>): nat {
    if rows == [] then 0 else (if ShownRow(rows[0]) then 1 else 0) + ShownRows(rows[1..])
  }

  /** Shown body rows of a table, those of its bodies and loose ones. */
  function TableRows(es: seq<Element>): nat {
    if es == [] then 0 else
      (if !es[0].html then 0 else if es[0].tag == TBody then ShownRows(es[0].children) else if ShownRow(es[0]) then 1 else 0)
      + TableRows(es[1..])
  }

  function RowCount(rows: seq<Element>): nat {
    if rows == [] then 0 else (if rows[0].tag == TR then 1 else 0) + RowCount(rows[1..])
  }

  /** No limit on rows is met in the table or section. */
  predicate Roomy(s: Stop) {
    && (s.role == Plain && s.e.tag == Table ==> TableRows(s.e.children) <= 50)
    && (s.role == Section && s.e.tag == TBody ==> ShownRows(s.e.children) <= 50)
    && (s.role == Section && s.e.tag != TBody ==> RowCount(s.e.children) <= 50)
  }

  /** All that is captured from a stop on. */
  function EmitAll(s: Stop): seq<DomNode> {
    match s.role
    case Plain => Emitted(s.e, s.depth, s.pierced)
    case Section =>
      [Node(s.e.info, s.e.tag, false,
            if s.e.tag == TBody then FullBodyRows(s.e.children, 0, s.depth) else FullHeadRows(s.e.children, MAX_TABLE_ROWS, s.depth))]
    case TableRow => [FullRow(s.e, s.depth)]
    case TableCell => [FullCell(s.e, s.depth)]
    case Bare => [Node(s.e.info, s.e.tag, false, [])]
  }

  ghost predicate Holds(f: seq<DomNode>, g: seq<DomNode>) { forall x :: x in Preorder(g) ==> x in Preorder(f) }

  lemma HoldsFirst(f: seq<DomNode>, g: seq<DomNode>)
    ensures Holds(f + g, f) && Holds(f + g, g)
  {
    PreorderConcat(f, g);
  }

  lemma HoldsThrough(f: seq<DomNode>, g: seq<DomNode>, h: seq<DomNode>)
    requires Holds(f, g) && Holds(g, h)
    ensures Holds(f, h)
  {
  }

  lemma HoldsItself(f: seq<DomNode>)
    ensures Holds(f, f)
  {
  }

  lemma NodeHolds(i: string, t: Tag, cs: seq<DomNode>)
    ensures Holds([Node(i, t, false, cs)], cs)
  {
    NodeMarks(i, t, cs);
  }

  lemma {:induction false} LightHolds(es: seq<Element>, j: nat, depth: nat, pierced: bool)
    requires j < |es|
    ensures Holds(FullChildren(es, depth, pierced), FullChild(es[j], depth, pierced))
  {
    hide FullWalk, FullChild, Holds;
    HoldsFirst(FullChild(es[0], depth, pierced), FullChildren(es[1..], depth, pierced));
    if j > 0 {
      LightHolds(es[1..], j - 1, depth, pierced);
      HoldsThrough(FullChildren(es, depth, pierced), FullChildren(es[1..], depth, pierced), FullChild(es[j], depth, pierced));
    }
  }

  lemma {:induction false} ShadowHolds(es: seq<Element>, j: nat, depth: nat)
    requires j < |es|
    ensures Holds(FullShadow(es, depth), Emitted(es[j], depth, true))
  {
    hide FullWalk, Holds;
    HoldsFirst(Emitted(es[0], depth, true), FullShadow(es[1..], depth));
    if j > 0 {
      ShadowHolds(es[1..], j - 1, depth);
      HoldsThrough(FullShadow(es, depth), FullShadow(es[1..], depth), Emitted(es[j], depth, true));
    }
  }

  lemma {:induction false} CellsHold(es: seq<Element>, j: nat, depth: nat)
    requires j < |es| && es[j].tag == Cell
    ensures Holds(FullCells(es, depth), [FullCell(es[j], depth)])
  {
    hide FullCell, Holds;
    HoldsFirst(if es[0].tag == Cell then [FullCell(es[0], depth)] else [], FullCells(es[1..], depth));
    if j > 0 {
      CellsHold(es[1..], j - 1, depth);
      HoldsThrough(FullCells(es, depth), FullCells(es[1..], depth), [FullCell(es[j], depth)]);
    }
  }

  lemma {:induction false} HeadRowsHold(es: seq<Element>, j: nat, left: nat, depth: nat)
    requires j < |es| && es[j].tag == TR && RowCount(es) <= left
    ensures Holds(FullHeadRows(es, left, depth), [FullRow(es[j], depth)])
  {
    hide FullRow, Holds;
    if j > 0 { RowsAreCounted(es[1..], j - 1); }
    var left' := if es[0].tag == TR then left - 1 else left;
    HoldsFirst(if es[0].tag == TR then [FullRow(es[0], depth)] else [], FullHeadRows(es[1..], left', depth));
    if j > 0 {
      HeadRowsHold(es[1..], j - 1, left', depth);
      HoldsThrough(FullHeadRows(es, left, depth), FullHeadRows(es[1..], left', depth), [FullRow(es[j], depth)]);
    }
  }

  lemma {:induction false} RowsAreCounted(es: seq<Element>, j: nat)
    requires j < |es|
    ensures es[j].tag == TR ==> RowCount(es) > 0
    ensures ShownRow(es[j]) ==> ShownRows(es) > 0
  {
    if j > 0 { RowsAreCounted(es[1..], j - 1); }
  }

  lemma {:induction false} BodyRowsHold(es: seq<Element>, j: nat, shown: nat, depth: nat)
    requires j < |es| && ShownRow(es[j]) && shown + ShownRows(es) <= 50
    ensures Holds(FullBodyRows(es, shown, depth), [FullRow(es[j], depth)])
  {
    hide FullRow, Holds;
    if j > 0 { RowsAreCounted(es[1..], j - 1); }
    var first := ShownRow(es[0]);
    var shown' := if first then shown + 1 else shown;
    HoldsFirst(if first then [FullRow(es[0], depth)] else [], FullBodyRows(es[1..], shown', depth));
    if j > 0 {
      BodyRowsHold(es[1..], j - 1, shown', depth);
      HoldsThrough(FullBodyRows(es, shown, depth), FullBodyRows(es[1..], shown', depth), [FullRow(es[j], depth)]);
    }
  }

  /** With room for all, it does not matter how many rows were shown before. */
  lemma {:induction false} BodyRowsSame(es: seq<Element>, shown: nat, other: nat, depth: nat)
    requires shown + ShownRows(es) <= 50 && other + ShownRows(es) <= 50
    ensures FullBodyRows(es, shown, depth) == FullBodyRows(es, other, depth)
    ensures ShownAfter(es, shown) == shown + ShownRows(es)
  {
    hide FullRow;
    if es != [] {
      var n := if ShownRow(es[0]) then 1 else 0;
      BodyRowsSame(es[1..], shown + n, other + n, depth);
    }
  }

  lemma {:induction false} SectionsHold(es: seq<Element>, j: nat, shown: nat, s: Stop, c: Stop)
    requires s.role == Plain && s.e.tag == Table && j < |es| && es[j] == c.e && Leads(s, c)
    requires shown + TableRows(es) <= 50
    ensures Holds(FullSections(es, shown, s.depth), EmitAll(c))
  {
    hide Holds, FullSection, EmitAll, Leads;
    SectionCounts(es[0], shown, s.depth);
    TableRowsFirst(es);
    HoldsFirst(FullSection(es[0], shown, s.depth), FullSections(es[1..], ShownAfterSection(es[0], shown), s.depth));
    if j > 0 {
      SectionsHold(es[1..], j - 1, ShownAfterSection(es[0], shown), s, c);
      HoldsThrough(FullSections(es, shown, s.depth), FullSections(es[1..], ShownAfterSection(es[0], shown), s.depth), EmitAll(c));
    } else {
      SectionIs(es, shown, s, c);
    }
  }

  lemma TableRowsFirst(es: seq<Element>)
    requires es != []
    ensures TableRows(es) == TableRows([es[0]]) + TableRows(es[1..])
  {
    assert [es[0]][1..] == [] && TableRows([]) == 0;
  }

  lemma SectionCounts(e: Element, shown: nat, depth: nat)
    ensures shown + TableRows([e]) <= 50 ==> ShownAfterSection(e, shown) == shown + TableRows([e])
  {
    assert [e][1..] == [] && TableRows([]) == 0;
    if e.html && e.tag == TBody && shown + ShownRows(e.children) <= 50 { BodyRowsSame(e.children, shown, shown, depth); }
  }

  lemma SectionIs(es: seq<Element>, shown: nat, s: Stop, c: Stop)
    requires s.role == Plain && s.e.tag == Table && es != [] && es[0] == c.e && Leads(s, c) && shown + TableRows(es) <= 50
    ensures FullSection(c.e, shown, s.depth) == EmitAll(c)
  {
    hide FullRow, FullHeadRows, FullBodyRows;
    if c.e.tag == TBody { BodyRowsSame(c.e.children, shown, 0, s.depth + 2); }
  }

  /** What is captured from a stop on holds what is captured from where it leads. */
  lemma StepHolds(p: Stop, c: Stop)
    requires Leads(p, c) && Roomy(p) && (p.role == Plain ==> Kept(p.e, p.depth))
    ensures Holds(EmitAll(p), EmitAll(c))
  {
    hide Emitted, FullSections, FullChildren, FullShadow, FullCells, FullHeadRows, FullBodyRows, Holds, FullRow, FullCell, EmitAll;
    match p.role {
      case Plain => PlainStepHolds(p, c);
      case Section => SectionStepHolds(p, c);
      case TableRow =>
        var j :| 0 <= j < |p.e.children| && p.e.children[j] == c.e;
        CellsHold(p.e.children, j, p.depth);
        RowEmits(p);
        CellEmits(c);
        NodeHolds(p.e.info, p.e.tag, FullCells(p.e.children, p.depth));
        HoldsThrough(EmitAll(p), FullCells(p.e.children, p.depth), EmitAll(c));
      case TableCell =>
        var j :| 0 <= j < |p.e.children| && p.e.children[j] == c.e;
        LightHolds(p.e.children, j, p.depth + 1, false);
        CellEmits(p);
        PlainEmits(c);
        NodeHolds(p.e.info, p.e.tag, FullChildren(p.e.children, p.depth + 1, false));
        HoldsThrough(EmitAll(p), FullChildren(p.e.children, p.depth + 1, false), EmitAll(c));
    }
  }

  lemma RowEmits(s: Stop)
    requires s.role == TableRow
    ensures EmitAll(s) == [FullRow(s.e, s.depth)] == [Node(s.e.info, s.e.tag, false, FullCells(s.e.children, s.depth))]
  {
  }

  lemma CellEmits(s: Stop)
    requires s.role == TableCell
    ensures EmitAll(s) == [FullCell(s.e, s.depth)] == [Node(s.e.info, s.e.tag, false, FullChildren(s.e.children, s.depth + 1, false))]
  {
  }

  lemma PlainEmits(s: Stop)
    requires s.role == Plain
    ensures EmitAll(s) == Emitted(s.e, s.depth, s.pierced)
    ensures !s.pierced ==> EmitAll(s) == FullChild(s.e, s.depth, false)
    ensures !s.pierced && s.e.tag != Slot ==> EmitAll(s) == FullChild(s.e, s.depth, true)
  {
  }

  lemma SectionStepHolds(p: Stop, c: Stop)
    requires p.role == Section && Leads(p, c) && Roomy(p)
    ensures Holds(EmitAll(p), EmitAll(c))
  {
    hide FullRow, FullHeadRows, FullBodyRows, Holds;
    var j :| 0 <= j < |p.e.children| && p.e.children[j] == c.e;
    var rows := if p.e.tag == TBody then FullBodyRows(p.e.children, 0, p.depth) else FullHeadRows(p.e.children, MAX_TABLE_ROWS, p.depth);
    if p.e.tag == TBody { BodyRowsHold(p.e.children, j, 0, p.depth); } else { HeadRowsHold(p.e.children, j, MAX_TABLE_ROWS, p.depth); }
    NodeHolds(p.e.info, p.e.tag, rows);
    HoldsThrough(EmitAll(p), rows, EmitAll(c));
  }

  lemma BelowIsHeld(p: Stop)
    requires p.role == Plain && Kept(p.e, p.depth)
    ensures Holds(EmitAll(p), Below(p.e, p.depth))
  {
    hide Below;
    EmittedMarks(p.e, p.depth, p.pierced);
  }

  lemma PlainStepHolds(p: Stop, c: Stop)
    requires p.role == Plain && Leads(p, c) && Roomy(p) && Kept(p.e, p.depth)
    ensures Holds(EmitAll(p), EmitAll(c))
  {
    hide Holds, FullSections, FullChildren, FullShadow, FullWalk, EmitAll;
    BelowIsHeld(p);
    if p.e.tag == Table {
      var j :| 0 <= j < |p.e.children| && p.e.children[j] == c.e;
      SectionsHold(p.e.children, j, 0, p, c);
      HoldsThrough(EmitAll(p), FullSections(p.e.children, 0, p.depth), EmitAll(c));
    } else {
      var d := p.depth + 1;
      var shadow := if p.e.hasShadow then FullShadow(p.e.shadow, d) else [];
      var light := FullChildren(p.e.children, d, p.e.hasShadow);
      HoldsFirst(shadow, light);
      PlainEmits(c);
      if c.pierced {
        var j :| 0 <= j < |p.e.shadow| && p.e.shadow[j] == c.e;
        ShadowHolds(p.e.shadow, j, d);
        HoldsThrough(shadow + light, shadow, EmitAll(c));
      } else {
        var j :| 0 <= j < |p.e.children| && p.e.children[j] == c.e;
        LightHolds(p.e.children, j, d, p.e.hasShadow);
        HoldsThrough(shadow + light, light, EmitAll(c));
      }
      HoldsThrough(EmitAll(p), shadow + light, EmitAll(c));
    }
  }

  /** A stop's own mark is first in what is captured from it on. */
  lemma StopIsCaptured(s: Stop)
    requires (s.role == Plain ==> Kept(s.e, s.depth)) && (s.role != Plain ==> !s.pierced)
    ensures MarkOf(s) in Preorder(EmitAll(s))
  {
    hide FullSections, FullChildren, FullShadow, FullWalk, FullCells, FullHeadRows, FullBodyRows, Below, Emitted;
    match s.role {
      case Plain => EmittedMarks(s.e, s.depth, s.pierced);
      case Section => NodeMarks(s.e.info, s.e.tag, EmitAll(s)[0].children);
      case TableRow => NodeMarks(s.e.info, s.e.tag, EmitAll(s)[0].children);
      case TableCell => NodeMarks(s.e.info, s.e.tag, EmitAll(s)[0].children);
      case Bare => NodeMarks(s.e.info, s.e.tag, []);
    }
  }

  lemma LeadsOn(p: Stop, c: Stop)
    requires Leads(p, c)
    ensures (c.role == Plain ==> Kept(c.e, c.depth)) && (c.role != Plain ==> !c.pierced)
  {
  }

  lemma {:induction false} PathIsCaptured(stops: seq<Stop>)
    requires stops != [] && Path(stops) && forall s | s in stops :: Roomy(s)
    requires (stops[0].role == Plain ==> Kept(stops[0].e, stops[0].depth)) && (stops[0].role != Plain ==> !stops[0].pierced)
    ensures MarkOf(stops[|stops| - 1]) in Preorder(EmitAll(stops[0]))
    decreases |stops|
  {
    hide EmitAll, Leads, Kept, Roomy, Path;
    if |stops| == 1 {
      StopIsCaptured(stops[0]);
    } else {
      PathTail(stops);
      LeadsOn(stops[0], stops[1]);
      PathIsCaptured(stops[1..]);
      StepHolds(stops[0], stops[1]);
    }
  }

  /** What the walk with no budget captures of a page: nothing but what a path reaches,
      and everything a path reaches that meets no limit on rows. */
  lemma PageIsCaptured(body: seq<Element>)
    ensures forall x | x in Preorder(FullChildren(body, 0, false)) :: exists stops: seq<Stop> :: Reaches(body, stops, x)
    ensures forall stops: seq<Stop>, x: Mark | Reaches(body, stops, x) && forall s | s in stops :: Roomy(s) ::
              x in Preorder(FullChildren(body, 0, false))
  {
    hide FullChildren, EmitAll, Path, Leads, Roomy, Kept;
    assert body[0..] == body;
    forall x | x in Preorder(FullChildren(body, 0, false))
      ensures exists stops: seq<Stop> :: Reaches(body, stops, x)
    {
      var stops := PageIsReached(body, 0, x);
    }
    forall stops: seq<Stop>, x: Mark | Reaches(body, stops, x) && forall s | s in stops :: Roomy(s)
      ensures x in Preorder(FullChildren(body, 0, false))
    {
      PathIsCaptured(stops);
      var j :| 0 <= j < |body| && body[j] == stops[0].e;
      LightHolds(body, j, 0, false);
      PlainEmits(stops[0]);
    }
  }

  lemma {:induction false} RealMarks(f: seq<DomNode>)
    ensures Preorder(Real(f)) == Preorder(f)
  {
    if f != [] {
      RealMarks(f[1..]);
      if f[0].Node? {
        RealMarks(f[0].children);
        assert Real(f)[1..] == Real(f[1..]);
      } else {
        assert Real(f) == Real(f[1..]);
      }
    }
  }

  // Order: shadow children before light ones, and both, rows and cells as they stand.

  lemma {:induction false} LightInOrder(a: seq<Element>, b: seq<Element>, depth: nat, pierced: bool)
    ensures FullChildren(a + b, depth, pierced) == FullChildren(a, depth, pierced) + FullChildren(b, depth, pierced)
  {
    hide FullChild;
    if a == [] { assert a + b == b; } else {
      assert (a + b)[1..] == a[1..] + b;
      LightInOrder(a[1..], b, depth, pierced);
    }
  }

  lemma {:induction false} ShadowInOrder(a: seq<Element>, b: seq<Element>, depth: nat)
    ensures FullShadow(a + b, depth) == FullShadow(a, depth) + FullShadow(b, depth)
    ensures forall n | n in FullShadow(a, depth) :: n.Node? && n.inShadow
  {
    hide FullWalk;
    if a == [] { assert a + b == b; } else {
      assert (a + b)[1..] == a[1..] + b;
      ShadowInOrder(a[1..], b, depth);
      WalkIsNode(a[0], depth);
    }
  }

  lemma WalkIsNode(e: Element, depth: nat)
    ensures forall n | n in FullWalk(e, depth) :: n.Node? && !n.inShadow
    ensures forall n | n in InShadow(FullWalk(e, depth)) :: n.Node? && n.inShadow
  {
    hide FullSections, FullInside;
    var f := FullWalk(e, depth);
    if f != [] { assert f[1..] == [] && InShadow([]) == []; }
  }

  lemma {:induction false} LightUnmarked(es: seq<Element>, depth: nat, pierced: bool)
    ensures forall n | n in FullChildren(es, depth, pierced) :: n.Node? && !n.inShadow
  {
    hide FullWalk;
    if es != [] {
      WalkIsNode(es[0], depth);
      LightUnmarked(es[1..], depth, pierced);
    }
  }

  /** Of a captured element the shadow children come first, marked as such, then the others. */
  lemma ShadowComesFirst(e: Element, depth: nat) returns (n: nat)
    ensures n <= |FullInside(e, depth)|
    ensures forall i | 0 <= i < |FullInside(e, depth)| :: FullInside(e, depth)[i].Node? && (FullInside(e, depth)[i].inShadow <==> i < n)
  {
    hide FullShadow, FullChildren;
    n := if e.hasShadow then |FullShadow(e.shadow, depth)| else 0;
    ShadowInOrder(e.shadow, [], depth);
    LightUnmarked(e.children, depth, e.hasShadow);
  }

  function OnScreen(rows: seq<Element>): seq<Element> {
    if rows == [] then [] else (if ShownRow(rows[0]) then [rows[0]] else []) + OnScreen(rows[1..])
  }

  function RowNodes(rows: seq<Element>, depth: nat): (nodes: seq<DomNode>)
    ensures |nodes| == |rows| && forall i | 0 <= i < |rows| :: nodes[i] == FullRow(rows[i], depth)
  {
    seq(|rows|, i requires 0 <= i < |rows| => FullRow(rows[i], depth))
  }

  /** Of a body's shown rows the first are captured, in order, until the table has 50. */
  lemma {:induction false} FirstRowsShown(rows: seq<Element>, shown: nat, depth: nat)
    requires shown <= 50
    ensures
      var all := OnScreen(rows);
      var n := Min(50 - shown, |all|);
      FullBodyRows(rows, shown, depth) == RowNodes(all[..n], depth) && ShownAfter(rows, shown) == shown + n
  {
    hide FullRow, RowNodes;
    RowNodesFirst([], depth);
    if rows != [] {
      var all, rest := OnScreen(rows), OnScreen(rows[1..]);
      if ShownRow(rows[0]) && shown < 50 {
        FirstRowsShown(rows[1..], shown + 1, depth);
        var n := Min(49 - shown, |rest|);
        assert all[..n + 1] == [rows[0]] + rest[..n];
        RowNodesFirst(all[..n + 1], depth);
      } else {
        FirstRowsShown(rows[1..], shown, depth);
        if shown == 50 { assert all[..0] == rest[..0]; }
      }
    }
  }

  lemma RowNodesFirst(rows: seq<Element>, depth: nat)
    ensures if rows == [] then RowNodes(rows, depth) == [] else RowNodes(rows, depth) == [FullRow(rows[0], depth)] + RowNodes(rows[1..], depth)
  {
    hide FullRow;
  }

  /** A head's or foot's rows: its first 50, in order. */
  lemma {:induction false} FirstRowsOfHead(rows: seq<Element>, left: nat, depth: nat)
    ensures
      var all := TableRowsIn(rows);
      FullHeadRows(rows, left, depth) == RowNodes(all[..Min(left, |all|)], depth)
  {
    hide FullRow, RowNodes;
    RowNodesFirst([], depth);
    if rows != [] && left > 0 {
      var all, rest := TableRowsIn(rows), TableRowsIn(rows[1..]);
      if rows[0].tag == TR {
        FirstRowsOfHead(rows[1..], left - 1, depth);
        var n := Min(left - 1, |rest|);
        assert all[..n + 1] == [rows[0]] + rest[..n];
        RowNodesFirst(all[..n + 1], depth);
      } else {
        FirstRowsOfHead(rows[1..], left, depth);
      }
    } else {
      assert TableRowsIn(rows)[..0] == [];
    }
  }

  function TableRowsIn(rows: seq<Element>): seq<Element> {
    if rows == [] then [] else (if rows[0].tag == TR then [rows[0]] else []) + TableRowsIn(rows[1..])
  }

  /** Of all of a table's shown rows, in its bodies and loose, the table shows the first 50. */
  lemma {:induction false} ShownInTable(es: seq<Element>, shown: nat, depth: nat)
    requires shown <= 50
    ensures RowsShown(FullSections(es, shown, depth)) == Min(50 - shown, TableRows(es))
  {
    hide FullSection, ShownAfterSection;
    if es != [] {
      var after := ShownAfterSection(es[0], shown);
      ShownInSection(es[0], shown, depth);
      ShownInTable(es[1..], after, depth);
      RowsShownConcat(FullSection(es[0], shown, depth), FullSections(es[1..], after, depth));
      TableRowsFirst(es);
    }
  }

  lemma ShownInSection(s: Element, shown: nat, depth: nat)
    requires shown <= 50
    ensures RowsShown(FullSection(s, shown, depth)) == Min(50 - shown, TableRows([s]))
    ensures ShownAfterSection(s, shown) == shown + Min(50 - shown, TableRows([s]))
  {
    hide FullBodyRows, FullHeadRows, RowNodes, OnScreen;
    assert [s][1..] == [] && TableRows([]) == 0;
    OnScreenCount(s.children);
    FirstRowsShown(s.children, shown, depth + 2);
    if s.html && s.tag !in [TR, Caption, ColGroup] {
      RowsShownNode(s.info, s.tag, if s.tag == TBody then FullBodyRows(s.children, shown, depth + 2) else FullHeadRows(s.children, MAX_TABLE_ROWS, depth + 2));
    } else if s.html && s.tag == TR {
      RowsShownNode(s.info, TR, FullCells(s.children, depth + 2));
    } else {
      RowsShownNode(s.info, s.tag, []);
    }
  }

  lemma RowsShownNode(info: string, tag: Tag, children: seq<DomNode>)
    ensures RowsShown([Node(info, tag, false, children)]) == if tag == TBody then |children| else if tag == TR then 1 else 0
    ensures RowsShown([]) == 0
  {
    assert [Node(info, tag, false, children)][1..] == [];
  }

  lemma {:induction false} OnScreenCount(rows: seq<Element>)
    ensures |OnScreen(rows)| == ShownRows(rows)
  {
    if rows != [] { OnScreenCount(rows[1..]); }
  }

  /** The rows a table counts: those of its bodies, and the loose ones, without a hiding style. */
  lemma {:induction false} RowsCounted(es: seq<Element>, s: Element)
    ensures BodyRows([]) == 0
    ensures BodyRows(es + [s]) == BodyRows(es)
              + if !s.html then 0
                else if s.tag == TBody then |RowPlaces(s.children)|
                else if s.tag == TR && !s.styleHidden then 1 else 0
  {
    if es == [] {
      assert es + [s] == [s] && [s][1..] == [];
      RowsOfBody(s.children);
    } else {
      assert (es + [s])[1..] == es[1..] + [s];
      RowsCounted(es[1..], s);
    }
  }

  function RowPlaces(rows: seq<Element>): set<nat> {
    set k: nat | k < |rows| && rows[k].tag == TR && !rows[k].styleHidden
  }

  lemma RowPlacesLast(rows: seq<Element>)
    requires rows != []
    ensures
      var n := |rows| - 1;
      && n !in RowPlaces(rows[..n])
      && RowPlaces(rows) == RowPlaces(rows[..n]) + if rows[n].tag == TR && !rows[n].styleHidden then {n} else {}
  {
  }

  lemma {:induction false} RowsOfBody(rows: seq<Element>)
    ensures CountedRows(rows) == |RowPlaces(rows)|
    decreases |rows|
  {
    if rows != [] {
      hide RowPlaces, CountedRows;
      RowsOfBody(rows[..|rows| - 1]);
      RowPlacesLast(rows);
      CountedLast(rows);
    }
  }

  lemma {:induction false} CountedLast(rows: seq<Element>)
    requires rows != []
    ensures
      var n := |rows| - 1;
      CountedRows(rows) == CountedRows(rows[..n]) + if rows[n].tag == TR && !rows[n].styleHidden then 1 else 0
  {
    var n := |rows| - 1;
    if n > 0 {
      CountedLast(rows[1..]);
      assert rows[1..][..n - 1] == rows[..n][1..];
    }
  }

  // ---------------------------------------------------------- the snapshot

  /** The page's tree: the first MAX_NODE_COUNT nodes of the walk with no budget,
      and a last marker when the cap was met. */
  method CaptureViewport(body: seq<Element>) returns (roots: seq<DomNode>, truncated: bool)
    ensures Real(roots) == Take(FullChildren(body, 0, false), 3000)
    ensures truncated <==> Capped in roots
    ensures Size(FullChildren(body, 0, false)) > 3000 ==> truncated
    ensures forall x | x in Preorder(roots) :: exists stops: seq<Stop> :: Reaches(body, stops, x)
    ensures !truncated ==> forall stops: seq<Stop>, x: Mark | Reaches(body, stops, x) && forall s | s in stops :: Roomy(s) :: x in Preorder(roots)
  {
    hide FullWalk, FullRow, FullCell, FullSection, FullInside;
    var counter := new NodeCounter();
    roots := [];
    ghost var done: seq<DomNode> := [];
    ghost var full := FullChildren(body, 0, false);
    var i := 0;
    while i < |body|
      invariant 0 <= i <= |body| && fresh(counter)
      invariant full == done + FullChildren(body[i..], 0, false)
      invariant Walked(roots, done, 0, counter.count, counter.truncated)
      invariant forall n | n in roots :: n.Node?
    {
      if counter.count >= MAX_NODE_COUNT {
        WalkedStop(roots, done, 0, counter.truncated, FullChildren(body[i..], 0, false));
        counter.truncated := true;
        done := full;
        break;
      }
      assert body[i..][1..] == body[i + 1..];
      ghost var middle, truncatedThen := counter.count, counter.truncated;
      var nodes := WalkDom(body[i], 0, counter);
      ghost var fullChild := FullChild(body[i], 0, false);
      WalkedMore(roots, done, 0, middle, truncatedThen, nodes, fullChild, counter.count, counter.truncated);
      roots := roots + nodes;
      done := done + fullChild;
      i := i + 1;
    }
    assert full == done;
    truncated := counter.truncated;
    if counter.truncated {
      RealConcat(roots, [Capped]);
      assert [Capped][1..] == [];
      roots := roots + [Capped];
    }
    SnapshotIsCaptured(body, roots);
  }

  /** The first nodes of the walk are among the walk's, and all of them when it is not longer. */
  lemma SnapshotIsCaptured(body: seq<Element>, roots: seq<DomNode>)
    requires Real(roots) == Take(FullChildren(body, 0, false), MAX_NODE_COUNT)
    ensures forall x | x in Preorder(roots) :: exists stops: seq<Stop> :: Reaches(body, stops, x)
    ensures Size(FullChildren(body, 0, false)) <= MAX_NODE_COUNT ==>
              forall stops: seq<Stop>, x: Mark | Reaches(body, stops, x) && forall s | s in stops :: Roomy(s) :: x in Preorder(roots)
  {
    hide FullChildren, Preorder, Real, Take, Reaches, Roomy;
    var full := FullChildren(body, 0, false);
    PageIsCaptured(body);
    RealMarks(roots);
    TakeIsPrefix(full, MAX_NODE_COUNT);
    forall x | x in Preorder(roots)
      ensures x in Preorder(full)
    {
      assert Preorder(roots) <= Preorder(full);
    }
  }
}
