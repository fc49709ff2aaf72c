/**
  The controller's events delivered one after another on the main thread:
  scroll ticks (with whatever offset the scroll view reports), drag ends,
  taps on the hamburger icon and selections in the menu. Properties that
  hold after any sequence of them are stated here.
 */
module EventTrace {
  import opened MenuGeometry
  import opened RootController

  datatype Event<Item> =
    | Scrolled(x: real)
    | DragEnded(decelerate: bool)
    | BurgerTapped
    | ItemSelected(item: Item)

  /**
    One event. A scroll tick moves the offset and runs the delegate; a drag
    end calls its handler. A tap reaches `burgerTapped` only through the
    recognizer on an installed icon, and a selection reaches
    `didSelectMenuItem` only from a menu controller that loaded and took
    this controller as its delegate; otherwise the event changes nothing.
   */
  function Step<Item>(s: Shell<Item>, e: Event<Item>, pi: real): (r: Shell<Item>)
    ensures !e.Scrolled? ==> r.paging == s.paging && r.menu == s.menu && r.burger == s.burger
    ensures r.menuLoaded == s.menuLoaded
    ensures !e.ItemSelected? ==> r.detail == s.detail
    ensures e.ItemSelected? ==> r.offset == s.offset
    ensures e.BurgerTapped? && s.burger.Some? ==> AtRest(r.offset) && (MenuIsHidden(r) <==> !MenuIsHidden(s))
    ensures e.BurgerTapped? && s.burger.None? ==> r == s
    ensures e.ItemSelected? && !s.menuLoaded ==> r == s
  {
    match e
    case Scrolled(x) => DidScroll(MoveMenu(s, x), pi)
    case DragEnded(decelerate) => DidEndDragging(s, decelerate)
    case BurgerTapped => if s.burger.Some? then ToggleMenu(s) else s
    case ItemSelected(item) => if s.menuLoaded then DidSelectMenuItem(s, item) else s
  }

  /** The events in order. */
  function Run<Item>(s: Shell<Item>, events: seq<Event<Item>>, pi: real): Shell<Item>
    decreases |events|
  {
    if |events| == 0 then s else Run(Step(s, events[0], pi), events[1..], pi)
  }

  /**
    What holds of the controller's visuals in every reachable state, whether
    or not they have caught up with the offset: the menu's opacity is in
    [0,1], the icon is exactly as open as the menu is opaque, the icon
    exists exactly when the detail pane does, and a non-identity transform
    is the one for the fraction the opacity stands for.
   */
  predicate Coherent<Item>(s: Shell<Item>, pi: real) {
    && 0.0 <= s.menu.alpha <= 1.0
    && (s.burger.Some? ==> s.burger.value == s.menu.alpha)
    && (s.burger.Some? <==> s.detail.Installed?)
    && (s.menu.transform.RotateShift? ==> s.menu.transform == TransformFor(1.0 - s.menu.alpha, pi))
  }

  /** The state after loading is coherent. */
  lemma LaunchCoherent<Item>(menuLoaded: bool, detailLoaded: bool, firstItem: Option<Item>, pi: real)
    ensures Coherent(Launch(menuLoaded, detailLoaded, firstItem), pi)
  {
  }

  /** In a coherent state the menu's rotation is within a quarter turn and its shift within [w/2, 3w/4]. */
  lemma CoherentBounds<Item>(s: Shell<Item>, pi: real)
    requires pi > 0.0
    requires Coherent(s, pi)
    requires s.menu.transform.RotateShift?
    ensures -pi / 2.0 <= s.menu.transform.angle <= 0.0
    ensures MenuWidth / 2.0 <= s.menu.transform.shift <= 3.0 * MenuWidth / 4.0
  {
  }

  /** Every event keeps the visuals coherent. */
  lemma StepCoherent<Item>(s: Shell<Item>, e: Event<Item>, pi: real)
    requires Coherent(s, pi)
    ensures Coherent(Step(s, e, pi), pi)
  {
  }

  /** Any sequence of events keeps the visuals coherent. */
  lemma {:induction false} RunCoherent<Item>(s: Shell<Item>, events: seq<Event<Item>>, pi: real)
    requires Coherent(s, pi)
    ensures Coherent(Run(s, events, pi), pi)
    decreases |events|
  {
    if |events| > 0 {
      StepCoherent(s, events[0], pi);
      RunCoherent(Step(s, events[0], pi), events[1..], pi);
    }
  }

  /** Running two sequences one after the other is running their concatenation. */
  lemma {:induction false} RunAppend<Item>(s: Shell<Item>, a: seq<Event<Item>>, b: seq<Event<Item>>, pi: real)
    ensures Run(s, a + b, pi) == Run(Run(s, a, pi), b, pi)
    decreases |a|
  {
    if |a| > 0 {
      assert (a + b)[0] == a[0];
      assert (a + b)[1..] == a[1..] + b;
      RunAppend(Step(s, a[0], pi), a[1..], b, pi);
    } else {
      assert a + b == b;
    }
  }

  /** After any history that ends in a scroll tick, the visuals agree with the offset that tick reported. */
  lemma EndsInSync<Item>(s: Shell<Item>, events: seq<Event<Item>>, x: real, pi: real)
    ensures Run(s, events + [Scrolled(x)], pi).offset == x
    ensures InSync(Run(s, events + [Scrolled(x)], pi), pi)
  {
    RunAppend(s, events, [Scrolled(x)], pi);
  }

  /** The most recent menu selection among the events, if there is one. */
  function LastSelection<Item>(events: seq<Event<Item>>): Option<Item>
    decreases |events|
  {
    if |events| == 0 then None
    else
      var later := LastSelection(events[1..]);
      if later.Some? then later
      else if events[0].ItemSelected? then Some(events[0].item)
      else None
  }

  /**
    When the menu controller loaded, the detail pane shows the most recently
    selected item, or what it showed before when nothing was selected.
    Without a menu controller no selection arrives and the detail pane keeps
    what it had; a detail pane that did not load stays absent.
   */
  lemma {:induction false} RunShowsLastSelection<Item>(s: Shell<Item>, events: seq<Event<Item>>, pi: real)
    ensures s.detail.Missing? ==> Run(s, events, pi).detail == Missing
    ensures !s.menuLoaded ==> Run(s, events, pi).detail == s.detail
    ensures s.menuLoaded && s.detail.Installed? ==>
      Run(s, events, pi).detail ==
        Installed(if LastSelection(events).Some? then LastSelection(events) else s.detail.item)
    decreases |events|
  {
    if |events| > 0 {
      RunShowsLastSelection(Step(s, events[0], pi), events[1..], pi);
    }
  }

  /** Only scroll ticks touch the paging flag: without one, the flag keeps its value. */
  lemma {:induction false} PagingOnlyChangesOnTick<Item>(s: Shell<Item>, events: seq<Event<Item>>, pi: real)
    ensures (forall i :: 0 <= i < |events| ==> !events[i].Scrolled?) ==>
      Run(s, events, pi).paging == s.paging
    decreases |events|
  {
    if |events| > 0 {
      PagingOnlyChangesOnTick(Step(s, events[0], pi), events[1..], pi);
      if forall i :: 0 <= i < |events| ==> !events[i].Scrolled? {
        assert !events[0].Scrolled?;
        assert forall i :: 0 <= i < |events[1..]| ==> !events[1..][i].Scrolled? by {
          forall i | 0 <= i < |events[1..]|
            ensures !events[1..][i].Scrolled?
          {
            assert events[1..][i] == events[i + 1];
          }
        }
      }
    }
  }
}
