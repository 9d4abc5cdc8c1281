/** The accordion's panel collection as a sequence of records, and what each
    public operation of kruhlikov/accordion/js/accordion.js makes of it. These
    functions are the specification the methods of `AccordionWidget.Accordion`
    are proved against; the lemmas state the accordion's rules over them. */
module AccordionItems {
  import opened AccordionRecords

  predicate AllWellFormed(items: seq<Item>) {
    forall j :: 0 <= j < |items| ==> WellFormed(items[j])
  }

  predicate AllOpen(items: seq<Item>) {
    forall j :: 0 <= j < |items| ==> items[j].isOpen
  }

  predicate AllClosed(items: seq<Item>) {
    forall j :: 0 <= j < |items| ==> !items[j].isOpen
  }

  predicate AtMostOneOpen(items: seq<Item>) {
    forall j, k :: 0 <= j < k < |items| ==> !(items[j].isOpen && items[k].isOpen)
  }

  /** Every record keeps its id, saved height, saved styles and listeners. */
  predicate OnlyStatesChanged(items: seq<Item>, r: seq<Item>) {
    |r| == |items| && forall j :: 0 <= j < |r| ==> OnlyStateChanged(items[j], r[j])
  }

  /** The records `_setupItem` adds for one node: one if it is complete, none otherwise. */
  function SetupOne(node: ItemNode): seq<Item> {
    if Complete(node) then [SetupRecord(node)] else []
  }

  /** How many of the nodes have both a title and a content. */
  function CountComplete(nodes: seq<ItemNode>): nat
    decreases |nodes|
  {
    if |nodes| == 0 then 0
    else CountComplete(nodes[..|nodes| - 1]) + (if Complete(nodes[|nodes| - 1]) then 1 else 0)
  }

  /** The records `init`'s loop pushes for the nodes, in document order:
      one per complete node. */
  function Setup(nodes: seq<ItemNode>): (r: seq<Item>)
    ensures |r| == CountComplete(nodes) <= |nodes|
    ensures AllWellFormed(r)
    decreases |nodes|
  {
    if |nodes| == 0 then [] else Setup(nodes[..|nodes| - 1]) + SetupOne(nodes[|nodes| - 1])
  }

  /** The records of two runs of nodes are those of each run, in order:
      each node is set up on its own. */
  lemma {:induction false} SetupConcat(a: seq<ItemNode>, b: seq<ItemNode>)
    ensures Setup(a + b) == Setup(a) + Setup(b)
    decreases |b|
  {
    if |b| == 0 {
      assert a + b == a;
    } else {
      var front := b[..|b| - 1];
      assert (a + b)[..|a + b| - 1] == a + front;
      SetupConcat(a, front);
    }
  }

  lemma SetupSingle(x: ItemNode)
    ensures Setup([x]) == SetupOne(x)
  {
    assert [x][..0] == [];
  }

  /** A node without a title or a content is skipped and leaves the records
      of every other node, before and after it, as they were. */
  lemma SetupSkipsIncomplete(a: seq<ItemNode>, x: ItemNode, b: seq<ItemNode>)
    requires !Complete(x)
    ensures Setup(a + [x] + b) == Setup(a + b)
  {
    SetupSingle(x);
    SetupConcat(a + [x], b);
    SetupConcat(a, [x]);
    SetupConcat(a, b);
  }

  /** A complete node contributes exactly its own record, in its place. */
  lemma SetupKeepsComplete(a: seq<ItemNode>, x: ItemNode, b: seq<ItemNode>)
    requires Complete(x)
    ensures Setup(a + [x] + b) == Setup(a) + [SetupRecord(x)] + Setup(b)
  {
    SetupSingle(x);
    SetupConcat(a + [x], b);
    SetupConcat(a, [x]);
  }

  /** When every node is complete, there is one record per node, built from that node. */
  lemma {:induction false} SetupAllComplete(nodes: seq<ItemNode>)
    requires forall j :: 0 <= j < |nodes| ==> Complete(nodes[j])
    ensures |Setup(nodes)| == |nodes|
    ensures forall k :: 0 <= k < |nodes| ==> Setup(nodes)[k] == SetupRecord(nodes[k])
  {
    if |nodes| > 0 {
      var front := nodes[..|nodes| - 1];
      SetupAllComplete(front);
      assert Setup(nodes) == Setup(front) + [SetupRecord(nodes[|nodes| - 1])];
    }
  }

  /** When no node is complete, no record is built (yet `init` still marks the accordion initialized). */
  lemma {:induction false} SetupNoneComplete(nodes: seq<ItemNode>)
    requires forall j :: 0 <= j < |nodes| ==> !Complete(nodes[j])
    ensures Setup(nodes) == []
  {
    if |nodes| > 0 {
      SetupNoneComplete(nodes[..|nodes| - 1]);
    }
  }

  /** `_closeOtherItems`: every open record other than `i` is closed; closed ones are skipped. */
  function CloseOthers(items: seq<Item>, i: nat): (r: seq<Item>)
    requires i < |items|
    ensures OnlyStatesChanged(items, r)
    ensures r[i] == items[i]
    ensures forall j :: 0 <= j < |r| && j != i ==> !r[j].isOpen
    ensures forall j :: 0 <= j < |r| && !items[j].isOpen ==> r[j] == items[j]
    ensures forall j :: 0 <= j < |r| && j != i && items[j].isOpen ==> Synced(r[j]) && r[j].style.height == Px(0)
    ensures AllWellFormed(items) ==> AllWellFormed(r)
  {
    seq(|items|, j requires 0 <= j < |items| =>
      if j != i && items[j].isOpen then CloseOther(items[j]) else items[j])
  }

  /** `_toggleItem` on record `i` with the given `onlyOneOpen` option. */
  function Toggled(items: seq<Item>, i: nat, onlyOneOpen: bool): (r: seq<Item>)
    requires i < |items|
    ensures OnlyStatesChanged(items, r)
    ensures r[i].isOpen == !items[i].isOpen && Synced(r[i])
    ensures AllWellFormed(items) ==> AllWellFormed(r)
    // exclusivity: opening under onlyOneOpen leaves the target the only open record
    ensures onlyOneOpen && !items[i].isOpen ==> forall j :: 0 <= j < |r| && j != i ==> !r[j].isOpen
    // otherwise (closing, or onlyOneOpen off) no other record is touched
    ensures !(onlyOneOpen && !items[i].isOpen) ==> forall j :: 0 <= j < |r| && j != i ==> r[j] == items[j]
  {
    var base := if onlyOneOpen && !items[i].isOpen then CloseOthers(items, i) else items;
    base[i := ToggleRecord(items[i])]
  }

  /** With `onlyOneOpen`, opening a closed record of a consistent accordion
      leaves it the only open one, every other record closed at height 0
      with its ARIA and class in line. */
  lemma OpenIsExclusive(items: seq<Item>, i: nat)
    requires i < |items| && AllWellFormed(items) && !items[i].isOpen
    ensures var r := Toggled(items, i, true);
      && r[i].isOpen
      && AtMostOneOpen(r)
      && forall j :: 0 <= j < |r| && j != i ==>
           !r[j].isOpen && r[j].style.height == Px(0) && WellFormed(r[j])
  {
  }

  /** What `openAll` does with `onlyOneOpen` switched off: every closed record is toggled. */
  function OpenedAll(items: seq<Item>): (r: seq<Item>)
    ensures OnlyStatesChanged(items, r)
    ensures AllOpen(r)
    ensures forall j :: 0 <= j < |r| && items[j].isOpen ==> r[j] == items[j]
    ensures AllWellFormed(items) ==> AllWellFormed(r)
  {
    seq(|items|, j requires 0 <= j < |items| =>
      if items[j].isOpen then items[j] else ToggleRecord(items[j]))
  }

  /** What `closeAll` does: every open record is toggled. */
  function ClosedAll(items: seq<Item>): (r: seq<Item>)
    ensures OnlyStatesChanged(items, r)
    ensures AllClosed(r)
    ensures forall j :: 0 <= j < |r| && !items[j].isOpen ==> r[j] == items[j]
    ensures AllWellFormed(items) ==> AllWellFormed(r)
  {
    seq(|items|, j requires 0 <= j < |items| =>
      if items[j].isOpen then ToggleRecord(items[j]) else items[j])
  }

  /** A public call on a built accordion; indices are unchecked integers. */
  datatype Op = OpenOp(index: int) | CloseOp(index: int) | OpenAllOp | CloseAllOp

  /** The records after one public call. Before `init` every call is a
      no-op; an index outside the collection is a no-op; opening an open
      record or closing a closed one is a no-op. */
  function AfterOp(items: seq<Item>, initialized: bool, onlyOneOpen: bool, op: Op): (r: seq<Item>)
    ensures OnlyStatesChanged(items, r)
    ensures !initialized ==> r == items
    ensures AllWellFormed(items) ==> AllWellFormed(r)
    ensures op.OpenOp? && initialized && 0 <= op.index < |items| ==> r[op.index].isOpen
    ensures op.CloseOp? && initialized && 0 <= op.index < |items| ==> !r[op.index].isOpen
    ensures (op.OpenOp? || op.CloseOp?) && !(0 <= op.index < |items|) ==> r == items
    ensures op.OpenOp? && 0 <= op.index < |items| && items[op.index].isOpen ==> r == items
    ensures op.CloseOp? && 0 <= op.index < |items| && !items[op.index].isOpen ==> r == items
    ensures op.CloseOp? ==> forall j :: 0 <= j < |r| && j != op.index ==> r[j] == items[j]
    ensures op == OpenAllOp && initialized ==> AllOpen(r)
    ensures op == CloseAllOp && initialized ==> AllClosed(r)
  {
    if !initialized then items
    else match op
      case OpenOp(i) => if 0 <= i < |items| && !items[i].isOpen then Toggled(items, i, onlyOneOpen) else items
      case CloseOp(i) => if 0 <= i < |items| && items[i].isOpen then Toggled(items, i, onlyOneOpen) else items
      case OpenAllOp => OpenedAll(items)
      case CloseAllOp => ClosedAll(items)
  }

  /** The records after a sequence of public calls. */
  function Run(items: seq<Item>, initialized: bool, onlyOneOpen: bool, ops: seq<Op>): seq<Item>
    decreases |ops|
  {
    if ops == [] then items else Run(AfterOp(items, initialized, onlyOneOpen, ops[0]), initialized, onlyOneOpen, ops[1..])
  }

  /** No sequence of calls changes a record's id, saved height, saved styles
      or listeners: the open target stays the height measured at setup. */
  lemma {:induction false} RunKeepsSetup(items: seq<Item>, initialized: bool, onlyOneOpen: bool, ops: seq<Op>)
    ensures OnlyStatesChanged(items, Run(items, initialized, onlyOneOpen, ops))
    decreases |ops|
  {
    if ops != [] {
      var next := AfterOp(items, initialized, onlyOneOpen, ops[0]);
      RunKeepsSetup(next, initialized, onlyOneOpen, ops[1..]);
    }
  }

  /** Every sequence of calls keeps each record consistent: ARIA flags,
      class, height target and animated padding follow `isOpen`. */
  lemma {:induction false} RunKeepsWellFormed(items: seq<Item>, initialized: bool, onlyOneOpen: bool, ops: seq<Op>)
    requires AllWellFormed(items)
    ensures AllWellFormed(Run(items, initialized, onlyOneOpen, ops))
    decreases |ops|
  {
    if ops != [] {
      RunKeepsWellFormed(AfterOp(items, initialized, onlyOneOpen, ops[0]), initialized, onlyOneOpen, ops[1..]);
    }
  }

  /** A click or an Enter/Space key on a title toggles its record; under
      `onlyOneOpen` that keeps at most one record open. */
  lemma ToggleStaysExclusive(items: seq<Item>, i: nat)
    requires i < |items| && AtMostOneOpen(items)
    ensures AtMostOneOpen(Toggled(items, i, true))
  {
  }

  /** One `open` or `close` under `onlyOneOpen` keeps at most one record open. */
  lemma StepStaysExclusive(items: seq<Item>, initialized: bool, op: Op)
    requires op.OpenOp? || op.CloseOp?
    requires AtMostOneOpen(items)
    ensures AtMostOneOpen(AfterOp(items, initialized, true, op))
  {
  }

  /** Under `onlyOneOpen`, any sequence of `open`/`close` calls keeps at most
      one record open once at most one is. */
  lemma {:induction false} RunStaysExclusive(items: seq<Item>, initialized: bool, ops: seq<Op>)
    requires forall k :: 0 <= k < |ops| ==> ops[k].OpenOp? || ops[k].CloseOp?
    requires AtMostOneOpen(items)
    ensures AtMostOneOpen(Run(items, initialized, true, ops))
    decreases |ops|
  {
    if ops != [] {
      StepStaysExclusive(items, initialized, ops[0]);
      RunStaysExclusive(AfterOp(items, initialized, true, ops[0]), initialized, ops[1..]);
    }
  }

  /** Opening then closing a closed record gives that record back unchanged
      (its height target back at 0); with `onlyOneOpen` off nothing else moved. */
  lemma OpenCloseRoundTrip(items: seq<Item>, i: nat, onlyOneOpen: bool)
    requires i < |items| && AllWellFormed(items) && !items[i].isOpen
    ensures var r := AfterOp(AfterOp(items, true, onlyOneOpen, OpenOp(i)), true, onlyOneOpen, CloseOp(i));
      && r[i] == items[i]
      && r[i].style.height == Px(0)
      && (!onlyOneOpen ==> r == items)
  {
    ToggleRoundTrip(items[i]);
  }
}
