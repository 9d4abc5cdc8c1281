/** One accordion panel as a value: the record `_setupItem` builds for an
    `[data-accordion-item]` node, the attributes and inline style the
    accordion writes on its title and content, and the per-record steps of
    kruhlikov/accordion/js/accordion.js (setup, open, close, class and ARIA
    refresh, teardown). The DOM is replaced by plain fields; what the browser
    measures (`scrollHeight`, the computed style) and the generated id arrive
    as inputs in an `ItemNode`. */
module AccordionRecords {

  datatype Option<T> = None | Some(value: T)

  /** The merged options. `startActive` is accepted but nothing reads it:
      a panel's first state comes from its `is-active` class. */
  datatype Options = Options(duration: int, easing: string, onlyOneOpen: bool, startActive: bool)

  const DefaultOptions: Options := Options(300, "ease-in-out", true, true)

  /** The options object a caller passes; `None` is a key it leaves out. */
  datatype OptionOverrides = OptionOverrides(
    duration: Option<int>, easing: Option<string>, onlyOneOpen: Option<bool>, startActive: Option<bool>)

  function Pick<T>(o: Option<T>, fallback: T): T {
    if o.Some? then o.value else fallback
  }

  /** `{...defaultOptions, ...options}`: a key the caller gives wins, every
      other key keeps its documented default. */
  function MergeOptions(o: OptionOverrides): (r: Options)
    ensures r.duration == (if o.duration.Some? then o.duration.value else 300)
    ensures r.easing == (if o.easing.Some? then o.easing.value else "ease-in-out")
    ensures r.onlyOneOpen == (if o.onlyOneOpen.Some? then o.onlyOneOpen.value else true)
    ensures r.startActive == (if o.startActive.Some? then o.startActive.value else true)
    ensures o == OptionOverrides(None, None, None, None) ==> r == DefaultOptions
  {
    Options(Pick(o.duration, DefaultOptions.duration), Pick(o.easing, DefaultOptions.easing),
            Pick(o.onlyOneOpen, DefaultOptions.onlyOneOpen), Pick(o.startActive, DefaultOptions.startActive))
  }

  /** Padding and box-sizing as CSS strings; "" is an empty (falsy) value. */
  datatype Styles = Styles(paddingTop: string, paddingRight: string, paddingBottom: string,
                           paddingLeft: string, boxSizing: string)

  /** An inline `height`: unset ("") or a pixel count; the source's '0' is `Px(0)`. */
  datatype Height = Unset | Px(px: nat)

  /** The part of a content element's inline style the accordion writes.
      `transition` and `overflowHidden` say whether the accordion's
      transition and `overflow: hidden` are in place (their strings are not modelled). */
  datatype InlineStyle = InlineStyle(
    transition: bool, overflowHidden: bool, height: Height,
    paddingTop: string, paddingRight: string, paddingBottom: string, paddingLeft: string,
    boxSizing: string)

  /** The attributes the accordion writes on a title and its content. */
  datatype Aria = Aria(
    titleId: string, ariaExpanded: bool, ariaControls: string, titleRole: string,
    tabindexAdded: bool,
    contentId: string, ariaLabelledby: string, ariaHidden: bool, contentRole: string)

  /** What the document offers for one `[data-accordion-item]` node: whether
      it holds a title and a content element, the title's tag, its
      `is-active` class, its content's `data-accordion-padding` ("" when absent), the
      measured heights (of the content, and of its off-screen clone with the
      custom padding), the computed style and the id generated for it. */
  datatype ItemNode = ItemNode(
    hasTitle: bool, hasContent: bool, titleIsButton: bool, isActive: bool,
    customPadding: string, scrollHeight: nat, cloneScrollHeight: nat, computed: Styles,
    id: string)

  /** One panel record. `active` is the `is-active` class on the item
      element; the two listener flags say whether the title's click and
      keydown listeners are attached. */
  datatype Item = Item(
    id: string, isOpen: bool, active: bool, titleIsButton: bool, customPadding: string,
    aria: Aria, originalHeight: nat, originalStyles: Styles, style: InlineStyle,
    clickAttached: bool, keydownAttached: bool)

  datatype Dimensions = Dimensions(height: nat, styles: Styles)

  /** A node becomes a panel only when it has both a title and a content. */
  predicate Complete(node: ItemNode) {
    node.hasTitle && node.hasContent
  }

  /** Open and close move the vertical padding only when both saved values are non-empty. */
  predicate AnimatesPadding(s: Styles) {
    s.paddingTop != "" && s.paddingBottom != ""
  }

  /** The height a panel is driven to: its saved height when open, 0 when closed. */
  function HeightTarget(isOpen: bool, originalHeight: nat): Height {
    if isOpen then Px(originalHeight) else Px(0)
  }

  /** The vertical padding (top, bottom) a panel is driven to. */
  function PaddingTarget(isOpen: bool, s: Styles): (string, string) {
    if isOpen then (s.paddingTop, s.paddingBottom) else ("0", "0")
  }

  predicate AriaSynced(it: Item) {
    it.aria.ariaExpanded == it.isOpen && it.aria.ariaHidden == !it.isOpen
  }

  /** Everything that follows the open state agrees with it. */
  predicate Synced(it: Item) {
    && AriaSynced(it)
    && it.active == it.isOpen
    && it.style.height == HeightTarget(it.isOpen, it.originalHeight)
    && (AnimatesPadding(it.originalStyles) ==>
          (it.style.paddingTop, it.style.paddingBottom) == PaddingTarget(it.isOpen, it.originalStyles))
  }

  /** The title and its content name each other through `${id}-title` and `${id}-content`. */
  predicate Linked(a: Aria, id: string) {
    && a.titleId == id + "-title" && a.ariaLabelledby == a.titleId
    && a.contentId == id + "-content" && a.ariaControls == a.contentId
    && a.titleRole == "button" && a.contentRole == "region"
  }

  /** What setup establishes and toggling never touches. */
  predicate SetupIntact(it: Item) {
    && Linked(it.aria, it.id)
    && it.aria.tabindexAdded == !it.titleIsButton
    && it.style.transition && it.style.overflowHidden
    && it.style.paddingLeft == it.originalStyles.paddingLeft
    && it.style.paddingRight == it.originalStyles.paddingRight
    && it.style.boxSizing == it.originalStyles.boxSizing
    && it.clickAttached && it.keydownAttached
  }

  /** The record invariant of a live accordion. */
  predicate WellFormed(it: Item) {
    Synced(it) && SetupIntact(it)
  }

  /** `r` differs from `it` at most in the open state, the class, the two
      ARIA flags, the height and the vertical padding. */
  predicate OnlyStateChanged(it: Item, r: Item) {
    r == it.(isOpen := r.isOpen, active := r.active,
             aria := it.aria.(ariaExpanded := r.aria.ariaExpanded, ariaHidden := r.aria.ariaHidden),
             style := it.style.(height := r.style.height,
                                paddingTop := r.style.paddingTop, paddingBottom := r.style.paddingBottom))
  }

  predicate SameVerticalPadding(it: Item, r: Item) {
    r.style.paddingTop == it.style.paddingTop && r.style.paddingBottom == it.style.paddingBottom
  }

  /** `_setupAriaAttributes`. */
  function SetupAriaAttributes(id: string, isOpen: bool, titleIsButton: bool): (a: Aria)
    ensures Linked(a, id)
    ensures a.ariaExpanded == isOpen && a.ariaHidden == !isOpen
    ensures a.tabindexAdded <==> !titleIsButton
  {
    Aria(id + "-title", isOpen, id + "-content", "button", !titleIsButton,
         id + "-content", id + "-title", !isOpen, "region")
  }

  /** The choices `_saveOriginalDimensions` makes once the browser has measured:
      a custom padding replaces the computed padding on all four sides and
      selects the clone's height; box-sizing always comes from the computed style. */
  function SaveOriginalDimensions(node: ItemNode): (d: Dimensions)
    ensures d.styles.boxSizing == node.computed.boxSizing
    ensures d.height == (if node.customPadding != "" then node.cloneScrollHeight else node.scrollHeight)
    ensures node.customPadding != "" ==>
              d.styles.paddingTop == d.styles.paddingRight == d.styles.paddingBottom
                == d.styles.paddingLeft == node.customPadding
    ensures node.customPadding == "" ==> d.styles == node.computed
    ensures AnimatesPadding(d.styles) <==> node.customPadding != "" || AnimatesPadding(node.computed)
  {
    var cp := node.customPadding;
    if cp != "" then Dimensions(node.cloneScrollHeight, Styles(cp, cp, cp, cp, node.computed.boxSizing))
    else Dimensions(node.scrollHeight, node.computed)
  }

  /** `_setInitialHeight`: every modelled inline property is overwritten. */
  function SetInitialHeight(isOpen: bool, d: Dimensions): (s: InlineStyle)
    ensures s.transition && s.overflowHidden
    ensures s.height == HeightTarget(isOpen, d.height)
    ensures (s.paddingTop, s.paddingBottom) == PaddingTarget(isOpen, d.styles)
    ensures s.paddingLeft == d.styles.paddingLeft && s.paddingRight == d.styles.paddingRight
    ensures s.boxSizing == d.styles.boxSizing
  {
    var s := InlineStyle(true, true, Unset, "", d.styles.paddingRight, "", d.styles.paddingLeft, d.styles.boxSizing);
    if isOpen then s.(height := Px(d.height), paddingTop := d.styles.paddingTop, paddingBottom := d.styles.paddingBottom)
    else s.(height := Px(0), paddingTop := "0", paddingBottom := "0")
  }

  /** The record `_setupItem` pushes for a complete node (listeners attached). */
  function SetupRecord(node: ItemNode): (it: Item)
    ensures WellFormed(it)
    ensures it.id == node.id && it.isOpen == node.isActive && it.titleIsButton == node.titleIsButton
    ensures it.originalHeight == SaveOriginalDimensions(node).height
    ensures it.originalStyles == SaveOriginalDimensions(node).styles
  {
    var d := SaveOriginalDimensions(node);
    Item(node.id, node.isActive, node.isActive, node.titleIsButton, node.customPadding,
         SetupAriaAttributes(node.id, node.isActive, node.titleIsButton), d.height, d.styles,
         SetInitialHeight(node.isActive, d), true, true)
  }

  /** `_openItem`: the visual half of opening. */
  function OpenItem(it: Item): (r: Item)
    ensures r.style.height == HeightTarget(true, it.originalHeight)
    ensures AnimatesPadding(it.originalStyles) ==>
              (r.style.paddingTop, r.style.paddingBottom) == PaddingTarget(true, it.originalStyles)
    ensures !AnimatesPadding(it.originalStyles) ==> SameVerticalPadding(it, r)
    ensures OnlyStateChanged(it, r) && r.isOpen == it.isOpen && r.active == it.active && r.aria == it.aria
  {
    var s := it.style.(height := Px(it.originalHeight));
    if AnimatesPadding(it.originalStyles) then
      it.(style := s.(paddingTop := it.originalStyles.paddingTop, paddingBottom := it.originalStyles.paddingBottom))
    else it.(style := s)
  }

  /** `_closeItem`: the visual half of closing. */
  function CloseItem(it: Item): (r: Item)
    ensures r.style.height == HeightTarget(false, it.originalHeight)
    ensures AnimatesPadding(it.originalStyles) ==>
              (r.style.paddingTop, r.style.paddingBottom) == PaddingTarget(false, it.originalStyles)
    ensures !AnimatesPadding(it.originalStyles) ==> SameVerticalPadding(it, r)
    ensures OnlyStateChanged(it, r) && r.isOpen == it.isOpen && r.active == it.active && r.aria == it.aria
  {
    var s := it.style.(height := Px(0));
    if AnimatesPadding(it.originalStyles) then it.(style := s.(paddingTop := "0", paddingBottom := "0"))
    else it.(style := s)
  }

  /** `_updateAriaAttributes`: only the two ARIA flags change, and they follow `isOpen`. */
  function UpdateAriaAttributes(it: Item): (r: Item)
    ensures AriaSynced(r)
    ensures r.isOpen == it.isOpen && r.active == it.active && r.style == it.style
    ensures OnlyStateChanged(it, r)
  {
    it.(aria := it.aria.(ariaExpanded := it.isOpen, ariaHidden := !it.isOpen))
  }

  /** `_updateItemClasses`: `is-active` is present exactly when the panel is open. */
  function UpdateItemClasses(it: Item): (r: Item)
    ensures r.active == r.isOpen
    ensures r.isOpen == it.isOpen && r.aria == it.aria && r.style == it.style
    ensures OnlyStateChanged(it, r)
  {
    it.(active := it.isOpen)
  }

  /** What `_toggleItem` does to its own record (after any sibling closing):
      the open state flips and everything that follows it is brought in line. */
  function ToggleRecord(it: Item): (r: Item)
    ensures r.isOpen == !it.isOpen
    ensures Synced(r)
    ensures OnlyStateChanged(it, r)
    ensures WellFormed(it) ==> WellFormed(r)
    ensures !AnimatesPadding(it.originalStyles) ==> SameVerticalPadding(it, r)
  {
    var moved := if it.isOpen then CloseItem(it) else OpenItem(it);
    UpdateAriaAttributes(UpdateItemClasses(moved.(isOpen := !it.isOpen)))
  }

  /** What `_closeOtherItems` does to one open sibling. */
  function CloseOther(it: Item): (r: Item)
    ensures !r.isOpen && Synced(r)
    ensures r.style.height == Px(0)
    ensures OnlyStateChanged(it, r)
    ensures WellFormed(it) ==> WellFormed(r)
    ensures it.isOpen ==> r == ToggleRecord(it)
  {
    UpdateAriaAttributes(UpdateItemClasses(CloseItem(it).(isOpen := false)))
  }

  /** What `destroy` does to one record: the click listener goes, the
      injected transition, height and overflow are cleared, and the saved
      vertical padding and box-sizing are written back. The keydown listener,
      the ARIA attributes and the `is-active` class stay. */
  function Teardown(it: Item): (r: Item)
    ensures !r.clickAttached && r.keydownAttached == it.keydownAttached
    ensures r.style.height == Unset && !r.style.transition && !r.style.overflowHidden
    ensures r.style.paddingTop == it.originalStyles.paddingTop
    ensures r.style.paddingBottom == it.originalStyles.paddingBottom
    ensures r.style.boxSizing == it.originalStyles.boxSizing
    ensures SetupIntact(it) ==> (r.style.paddingLeft == it.originalStyles.paddingLeft &&
                                 r.style.paddingRight == it.originalStyles.paddingRight)
    ensures r.isOpen == it.isOpen && r.active == it.active && r.aria == it.aria && r.id == it.id
  {
    it.(clickAttached := false,
        style := it.style.(transition := false, height := Unset, overflowHidden := false,
                           paddingTop := it.originalStyles.paddingTop,
                           paddingBottom := it.originalStyles.paddingBottom,
                           boxSizing := it.originalStyles.boxSizing))
  }

  /** Two toggles of a consistent record give it back unchanged. */
  lemma ToggleRoundTrip(it: Item)
    requires WellFormed(it)
    ensures ToggleRecord(ToggleRecord(it)) == it
  {
  }
}
