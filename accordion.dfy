/** The `Accordion` class of kruhlikov/accordion/js/accordion.js: its fields
    are updated in place by `init`, the toggle primitive and the public
    operations, each proved against the functions of `AccordionItems`. */
module AccordionWidget {
  import opened AccordionRecords
  import opened AccordionItems

  class Accordion {
    /** Whether the container element was found. */
    var element: bool
    var options: Options
    var items: seq<Item>
    var initialized: bool

    ghost predicate Valid()
      reads this
    {
      && (!element ==> !initialized)
      && (!initialized ==> items == [])
      && AllWellFormed(items)
    }

    /** Without a container the source returns before setting any other
        field; every operation then reads `initialized` as false, so the
        model stores false, no records and the default options. */
    constructor (found: bool, overrides: OptionOverrides)
      ensures Valid()
      ensures element == found && items == [] && !initialized
      ensures found ==> options == MergeOptions(overrides)
    {
      element := found;
      options := if found then MergeOptions(overrides) else DefaultOptions;
      items := [];
      initialized := false;
    }

    /** `_setupItem`: pushes the record of a complete node, skips an incomplete one. */
    method SetupItem(node: ItemNode)
      modifies this`items
      ensures items == old(items) + SetupOne(node)
    {
      if !node.hasTitle || !node.hasContent {
        return;
      }
      items := items + [SetupRecord(node)];
    }

    /** `init`: `nodes` are the `[data-accordion-item]` nodes found in the container. */
    method Init(nodes: seq<ItemNode>)
      requires Valid()
      modifies this`items, this`initialized
      ensures Valid()
      ensures old(initialized) || !element ==> items == old(items) && initialized == old(initialized)
      ensures !old(initialized) && element && |nodes| == 0 ==> items == [] && !initialized
      // marked initialized even when every node was skipped
      ensures !old(initialized) && element && |nodes| > 0 ==> items == Setup(nodes) && initialized
    {
      if initialized {
        return;
      }
      if !element {
        return;
      }
      if |nodes| == 0 {
        initialized := false;
        return;
      }
      var k := 0;
      while k < |nodes|
        invariant 0 <= k <= |nodes|
        invariant items == Setup(nodes[..k])
      {
        SetupItem(nodes[k]);
        assert nodes[..k + 1][..k] == nodes[..k];
        k := k + 1;
      }
      assert nodes[..|nodes|] == nodes;
      initialized := true;
    }

    /** `_closeOtherItems`. */
    method CloseOtherItems(i: nat)
      requires i < |items|
      modifies this`items
      ensures items == CloseOthers(old(items), i)
    {
      var j := 0;
      while j < |items|
        invariant 0 <= j <= |items| == |old(items)|
        invariant forall k :: 0 <= k < j ==> items[k] == CloseOthers(old(items), i)[k]
        invariant forall k :: j <= k < |items| ==> items[k] == old(items)[k]
      {
        if j != i && items[j].isOpen {
          items := items[j := CloseOther(items[j])];
        }
        j := j + 1;
      }
    }

    /** `_toggleItem`, the only step that flips a record's `isOpen`. */
    method ToggleItem(i: nat)
      requires Valid() && i < |items|
      modifies this`items
      ensures Valid()
      ensures items == Toggled(old(items), i, options.onlyOneOpen)
    {
      if options.onlyOneOpen && !items[i].isOpen {
        CloseOtherItems(i);
      }
      items := items[i := ToggleRecord(items[i])];
    }

    /** `open(index)`. */
    method Open(index: int)
      requires Valid()
      modifies this`items
      ensures Valid()
      ensures items == AfterOp(old(items), initialized, options.onlyOneOpen, OpenOp(index))
      ensures initialized && 0 <= index < |items| ==> items[index].isOpen
      ensures !initialized || !(0 <= index < |items|) || old(items)[index].isOpen ==> items == old(items)
    {
      if !initialized {
        return;
      }
      if index < 0 || index >= |items| {
        return;
      }
      if !items[index].isOpen {
        ToggleItem(index);
      }
    }

    /** `close(index)`. */
    method Close(index: int)
      requires Valid()
      modifies this`items
      ensures Valid()
      ensures items == AfterOp(old(items), initialized, options.onlyOneOpen, CloseOp(index))
      ensures initialized && 0 <= index < |items| ==> !items[index].isOpen
      ensures !initialized || !(0 <= index < |items|) || !old(items)[index].isOpen ==> items == old(items)
    {
      if !initialized {
        return;
      }
      if index < 0 || index >= |items| {
        return;
      }
      if items[index].isOpen {
        ToggleItem(index);
      }
    }

    /** `openAll`: switches `onlyOneOpen` off while it toggles every closed
        record, then puts the saved value back. */
    method OpenAll()
      requires Valid()
      modifies this`items, this`options
      ensures Valid()
      ensures options == old(options)
      ensures items == AfterOp(old(items), initialized, options.onlyOneOpen, OpenAllOp)
      ensures initialized ==> AllOpen(items)
    {
      if !initialized {
        return;
      }
      var originalSetting := options.onlyOneOpen;
      options := options.(onlyOneOpen := false);
      var k := 0;
      while k < |items|
        invariant 0 <= k <= |items| == |old(items)|
        invariant Valid()
        invariant options == old(options).(onlyOneOpen := false)
        invariant forall j :: 0 <= j < k ==> items[j] == OpenedAll(old(items))[j]
        invariant forall j :: k <= j < |items| ==> items[j] == old(items)[j]
      {
        if !items[k].isOpen {
          ToggleItem(k);
        }
        k := k + 1;
      }
      options := options.(onlyOneOpen := originalSetting);
    }

    /** `closeAll`: toggles every open record; `onlyOneOpen` plays no part in closing. */
    method CloseAll()
      requires Valid()
      modifies this`items
      ensures Valid()
      ensures items == AfterOp(old(items), initialized, options.onlyOneOpen, CloseAllOp)
      ensures initialized ==> AllClosed(items)
    {
      if !initialized {
        return;
      }
      var k := 0;
      while k < |items|
        invariant 0 <= k <= |items| == |old(items)|
        invariant Valid()
        invariant forall j :: 0 <= j < k ==> items[j] == ClosedAll(old(items))[j]
        invariant forall j :: k <= j < |items| ==> items[j] == old(items)[j]
      {
        if items[k].isOpen {
          ToggleItem(k);
        }
        k := k + 1;
      }
    }

    /** `isOpen(index)`: false before `init` and outside the collection,
        otherwise the record's state, which its `aria-expanded` mirrors. */
    method IsOpen(index: int) returns (r: bool)
      requires Valid()
      ensures !initialized || index < 0 || index >= |items| ==> !r
      ensures initialized && 0 <= index < |items| ==> r == items[index].isOpen
      ensures r ==> items[index].aria.ariaExpanded && !items[index].aria.ariaHidden
    {
      if !initialized || index < 0 || index >= |items| {
        return false;
      }
      return items[index].isOpen;
    }

    /** `destroy`. `released` is what the document keeps of the records once
        the collection is emptied: each torn down, the click listener gone and
        the keydown listener still attached. */
    method Destroy() returns (released: seq<Item>)
      requires Valid()
      modifies this`items, this`initialized
      ensures Valid()
      ensures items == [] && !initialized
      ensures !old(initialized) ==> released == []
      ensures old(initialized) ==> |released| == |old(items)|
      ensures old(initialized) ==> forall j :: 0 <= j < |released| ==> released[j] == Teardown(old(items)[j])
      ensures forall j :: 0 <= j < |released| ==> !released[j].clickAttached && released[j].keydownAttached
    {
      if !initialized {
        return [];
      }
      var k := 0;
      while k < |items|
        invariant 0 <= k <= |items| == |old(items)|
        invariant forall j :: 0 <= j < k ==> items[j] == Teardown(old(items)[j])
        invariant forall j :: k <= j < |items| ==> items[j] == old(items)[j]
      {
        items := items[k := Teardown(items[k])];
        k := k + 1;
      }
      released := items;
      items := [];
      initialized := false;
    }
  }
}
