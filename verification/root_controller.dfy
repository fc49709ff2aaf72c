/**
  The root screen's controller: a horizontally paging scroll view holding the
  menu pane and the detail pane side by side. Its state is the scroll offset,
  the paging flag, the menu pane's opacity and transform, the hamburger
  icon's open amount and the item the detail pane shows; each handler of the
  controller is a pure function from one state to the next.

  Moving the scroll view with `setContentOffset(_:animated:)` is modelled as
  an instantaneous jump of the offset. The scroll ticks UIKit reports while
  such a move animates are separate `DidScroll` calls, exactly as when the
  user drags.
 */
module RootController {
  import opened MenuGeometry

  datatype Option<T> = None | Some(value: T)

  /** The scalar parameters of the menu layer's transform; `Identity` until the first scroll tick. */
  datatype LayerTransform = Identity | RotateShift(angle: real, shift: real)

  /** The menu container's look. */
  datatype MenuPane = MenuPane(alpha: real, transform: LayerTransform)

  /** The detail view controller, which may have failed to load, and the menu item it shows. */
  datatype DetailPane<Item> = Missing | Installed(item: Option<Item>)

  /**
    Everything the controller's handlers read or write. `menuLoaded` says
    whether the menu controller loaded and so took this controller as its
    delegate; `burger` is the open amount last given to the hamburger icon,
    or `None` when no icon was installed.
   */
  datatype Shell<Item> = Shell(
    offset: real,
    paging: bool,
    menu: MenuPane,
    burger: Option<real>,
    menuLoaded: bool,
    detail: DetailPane<Item>)

  /** The controller's own test for a hidden menu: the offset is past the threshold. */
  predicate MenuIsHidden<Item>(s: Shell<Item>) {
    s.offset > Threshold
  }

  /**
    The controller's hidden/shown test, read as a display fraction: the menu
    counts as hidden exactly when more than half of it is scrolled away.
   */
  lemma MenuIsHiddenPastHalf<Item>(s: Shell<Item>)
    ensures MenuIsHidden(s) <==> DisplayFraction(s.offset) > 0.5
  {
  }

  /**
    The scalar parameters of the layer transform the menu pane gets for a
    display fraction: unrotated and shifted by half its width when shown,
    edge-on and shifted by three quarters of its width when hidden.
   */
  function TransformFor(f: real, pi: real): (t: LayerTransform)
    ensures t.RotateShift?
    ensures pi > 0.0 && 0.0 <= f <= 1.0 ==>
      && -pi / 2.0 <= t.angle <= 0.0
      && MenuWidth / 2.0 <= t.shift <= 3.0 * MenuWidth / 4.0
    ensures f == 0.0 ==> t == RotateShift(0.0, MenuWidth / 2.0)
    ensures f == 1.0 ==> t == RotateShift(-pi / 2.0, 3.0 * MenuWidth / 4.0)
  {
    RotateShift(RotationAngle(f, pi), ShiftX(f, MenuWidth))
  }

  /**
    The visuals agree with the offset, as a scroll tick leaves them: paging
    is on exactly below the threshold, the menu pane has the look of the
    offset's display fraction and the icon (if any) is as open as the menu
    is shown.
   */
  predicate InSync<Item>(s: Shell<Item>, pi: real) {
    var f := DisplayFraction(s.offset);
    && s.paging == (s.offset < Threshold)
    && s.menu == MenuPane(MenuAlpha(f), TransformFor(f, pi))
    && (s.burger.Some? ==> s.burger.value == MenuAlpha(f))
  }

  /**
    The state after the view is loaded. The scroll view starts paged at
    offset 0 (menu shown) and the menu pane opaque and untransformed. The
    menu controller and the detail controller may each fail to load; the
    hamburger icon is installed only into a detail controller that loaded,
    and is told it is fully open. What the detail controller shows before
    any selection is its own business, so it is a parameter here.
   */
  function Launch<Item>(menuLoaded: bool, detailLoaded: bool, firstItem: Option<Item>): (s: Shell<Item>)
    ensures s.offset == 0.0 && !MenuIsHidden(s)
    ensures s.paging
    ensures s.menu == MenuPane(1.0, Identity)
    ensures s.burger.Some? <==> detailLoaded
    ensures s.burger.Some? ==> s.burger.value == 1.0
    ensures s.menuLoaded == menuLoaded
    ensures detailLoaded <==> s.detail == Installed(firstItem)
    ensures !detailLoaded <==> s.detail == Missing
  {
    Shell(
      0.0,
      true,
      MenuPane(1.0, Identity),
      if detailLoaded then Some(1.0) else None,
      menuLoaded,
      if detailLoaded then Installed(firstItem) else Missing)
  }

  /** The menu container's opacity and transform for a display fraction. */
  function UpdateViewVisibility(f: real, pi: real): (m: MenuPane)
    ensures m.alpha + f == 1.0
    ensures 0.0 <= f <= 1.0 ==> 0.0 <= m.alpha <= 1.0
    ensures m.transform.RotateShift?
    ensures pi > 0.0 && 0.0 <= f <= 1.0 ==>
      && -pi / 2.0 <= m.transform.angle <= 0.0
      && MenuWidth / 2.0 <= m.transform.shift <= 3.0 * MenuWidth / 4.0
  {
    MenuPane(MenuAlpha(f), TransformFor(f, pi))
  }

  /**
    The scroll delegate's tick: paging is switched on below the threshold,
    the menu pane and the icon are redrawn for the current display
    fraction. The offset and the detail pane are left alone.
   */
  function DidScroll<Item>(s: Shell<Item>, pi: real): (r: Shell<Item>)
    ensures InSync(r, pi)
    ensures r.offset == s.offset
    ensures r.paging <==> s.offset < Threshold
    ensures 0.0 <= r.menu.alpha <= 1.0
    ensures r.menu.alpha + DisplayFraction(s.offset) == 1.0
    ensures r.burger.Some? <==> s.burger.Some?
    ensures r.burger.Some? ==> r.burger.value + DisplayFraction(s.offset) == 1.0
    ensures r.menuLoaded == s.menuLoaded && r.detail == s.detail
  {
    var f := DisplayFraction(s.offset);
    s.(paging := s.offset < Threshold,
       menu := UpdateViewVisibility(f, pi),
       burger := if s.burger.Some? then Some(MenuAlpha(f)) else None)
  }

  /** A state whose visuals already agree with its offset is left as it is by a tick. */
  lemma DidScrollFixesInSync<Item>(s: Shell<Item>, pi: real)
    ensures InSync(s, pi) <==> DidScroll(s, pi) == s
  {
  }

  /** Jumping the scroll view to an offset; nothing but the offset changes. */
  function MoveMenu<Item>(s: Shell<Item>, nextPosition: real): (r: Shell<Item>)
    ensures r.offset == nextPosition
    ensures r.paging == s.paging && r.menu == s.menu
    ensures r.burger == s.burger && r.menuLoaded == s.menuLoaded && r.detail == s.detail
  {
    s.(offset := nextPosition)
  }

  /** Scrolls the menu out of view. */
  function HideMenu<Item>(s: Shell<Item>): (r: Shell<Item>)
    ensures AtRest(r.offset) && MenuIsHidden(r)
    ensures r == s.(offset := r.offset)
  {
    MoveMenu(s, MenuWidth)
  }

  /** Scrolls the menu into view. */
  function ShowMenu<Item>(s: Shell<Item>): (r: Shell<Item>)
    ensures AtRest(r.offset) && !MenuIsHidden(r)
    ensures r == s.(offset := r.offset)
  {
    MoveMenu(s, 0.0)
  }

  /**
    The end of a drag. Past the threshold the menu is hidden; at or below it
    the handler does nothing and leaves the settling to paging. Whether the
    scroll view will decelerate is not consulted.
   */
  function DidEndDragging<Item>(s: Shell<Item>, decelerate: bool): (r: Shell<Item>)
    ensures MenuIsHidden(s) ==> r.offset == MenuWidth
    ensures !MenuIsHidden(s) ==> r == s
    ensures MenuIsHidden(r) <==> MenuIsHidden(s)
    ensures r == s.(offset := r.offset)
  {
    if s.offset > Threshold then HideMenu(s) else s
  }

  /** The hamburger icon's action: move to the rest position opposite to the side the menu is on. */
  function ToggleMenu<Item>(s: Shell<Item>): (r: Shell<Item>)
    ensures AtRest(r.offset)
    ensures MenuIsHidden(r) <==> !MenuIsHidden(s)
    ensures r == s.(offset := r.offset)
  {
    var menuIsHidden := s.offset > Threshold;
    if menuIsHidden then ShowMenu(s) else HideMenu(s)
  }

  /** At exactly the threshold the menu counts as shown, so a toggle hides it. */
  lemma ToggleAtThresholdHides<Item>(s: Shell<Item>)
    requires s.offset == Threshold
    ensures ToggleMenu(s).offset == MenuWidth
  {
  }

  /**
    With a move taken as an instantaneous jump, two toggles in a row bring
    the menu to rest on the side it was on, and from a rest position they
    give back the very state they started from.
   */
  lemma ToggleTwice<Item>(s: Shell<Item>)
    ensures ToggleMenu(ToggleMenu(s)).offset == (if MenuIsHidden(s) then MenuWidth else 0.0)
    ensures AtRest(s.offset) ==> ToggleMenu(ToggleMenu(s)) == s
  {
  }

  /**
    A toggle followed by the scroll tick at its target leaves the menu fully
    shown (opaque, unrotated, paging on, icon fully open) if it was hidden,
    and fully hidden (transparent, edge-on, paging off, icon closed)
    otherwise.
   */
  lemma ToggleThenTick<Item>(s: Shell<Item>, pi: real)
    ensures var r := DidScroll(ToggleMenu(s), pi);
      if MenuIsHidden(s) then
        && r.offset == 0.0 && r.paging && r.menu.alpha == 1.0
        && r.menu.transform == RotateShift(0.0, MenuWidth / 2.0)
        && (r.burger.Some? ==> r.burger.value == 1.0)
      else
        && r.offset == MenuWidth && !r.paging && r.menu.alpha == 0.0
        && r.menu.transform == RotateShift(-pi / 2.0, 3.0 * MenuWidth / 4.0)
        && (r.burger.Some? ==> r.burger.value == 0.0)
  {
  }

  /** The menu's selection is shown by the detail pane, if that loaded; nothing else changes. */
  function DidSelectMenuItem<Item>(s: Shell<Item>, item: Item): (r: Shell<Item>)
    ensures s.detail.Installed? ==> r.detail == Installed(Some(item))
    ensures s.detail.Missing? ==> r == s
    ensures r == s.(detail := r.detail)
  {
    match s.detail
    case Missing => s
    case Installed(_) => s.(detail := Installed(Some(item)))
  }
}
