# Side-menu controller of TaskChooser, in Dafny

TaskChooser's root screen is a horizontally paging scroll view. It holds an
80-point-wide menu pane to the left of the detail pane. Scrolling hides or
shows the menu. While it scrolls, the menu pane fades, turns away about its
vertical axis and slides right. The hamburger icon in the detail pane's
navigation bar closes as the menu hides. A tap on the icon toggles the menu.
Picking an entry in the menu shows that entry in the detail pane.

This project models that controller, `RootViewController`. The model is
small, because the repository is mostly UIKit wiring. The verified part is a
handful of pure functions over one horizontal scroll offset, plus the event
handlers that read and move it.

- `MenuGeometry` (`menu_geometry.dfy`): the menu width (80) and the
  threshold (40). It also holds the display fraction: the offset over the
  width, clamped to [0,1]. From that fraction it derives the menu's opacity,
  the rotation angle and the x-translation. `CGFloat` is modelled as `real`.
  The constant pi is a parameter, and it is assumed positive only where a
  bound needs that.
- `RootController` (`root_controller.dfy`): the controller state as an
  immutable record. It holds the offset, the paging flag, the menu pane's
  opacity and transform parameters, the icon's open amount and the detail
  pane's item. Each handler is a pure function: the load-time state, the
  scroll tick, drag end, move/hide/show/toggle and menu selection. The
  menu controller, the detail controller and the hamburger icon may each be
  absent, as in the source. Without a detail controller there is no icon.
  Without an icon no tap reaches `toggleMenu`. Without a menu controller no
  selection arrives. Without a detail controller a selection changes nothing.
- `EventTrace` (`event_trace.dfy`): the handlers are dispatched one at a time
  on the main thread. This module replays any sequence of events and proves
  what holds after all of them. The visuals stay coherent, they agree with
  the offset after a scroll tick, and the detail pane shows the last
  selection.

`setContentOffset(_:animated:)` is modelled as an instantaneous jump of the
offset. UIKit reports the ticks of the animation through
`scrollViewDidScroll`, and the model treats those as separate `Scrolled`
events. So straight after `moveMenu` the menu's look still belongs to the
old offset, and the next tick brings it in line (`ToggleThenTick`,
`EndsInSync`).

A release at or below the threshold does not snap the menu open.
`scrollViewDidEndDragging` (RootViewController.swift:186-191) does nothing in
that case and leaves the settling to UIKit paging. The model follows the code
(`DidEndDragging`).

## Model

| member | source | states |
|---|---|---|
| MenuGeometry.Max | TaskChooser/Views/RootViewController.swift:165 | the result is at least both arguments and is one of them |
| MenuGeometry.Min | TaskChooser/Views/RootViewController.swift:165 | the result is at most both arguments and is one of them |
| MenuGeometry.DisplayFraction | TaskChooser/Views/RootViewController.swift:163-167 | the fraction is always in [0,1]; it is 0 for offsets at or below 0, 1 at or beyond the menu width, and offset/width in between |
| MenuGeometry.DisplayFractionMonotone | TaskChooser/Views/RootViewController.swift:163-166 | a larger offset never gives a smaller fraction |
| MenuGeometry.MenuAlpha | TaskChooser/Views/RootViewController.swift:172 | opacity and fraction sum to 1, so for a fraction in [0,1] the opacity is in [0,1] |
| MenuGeometry.RotationAngle | TaskChooser/Views/RootViewController.swift:155 | for a fraction in [0,1] and positive pi the angle lies in [-pi/2, 0]; it is 0 when the menu is shown and -pi/2 when it is hidden |
| MenuGeometry.RotationAngleMonotone | TaskChooser/Views/RootViewController.swift:155 | the angle does not increase as the fraction grows |
| MenuGeometry.ShiftX | TaskChooser/Views/RootViewController.swift:156 | for a fraction in [0,1] and non-negative width the translation lies in [w/2, 3w/4]; it is w/2 when shown and 3w/4 when hidden |
| MenuGeometry.ShiftXMonotone | TaskChooser/Views/RootViewController.swift:156 | the translation does not decrease as the fraction grows |
| RootController.MenuIsHiddenPastHalf | TaskChooser/Views/RootViewController.swift:186-213 | the handlers' test `offset > threshold` holds exactly when more than half of the menu is scrolled away |
| RootController.TransformFor | TaskChooser/Views/RootViewController.swift:151-161 | the transform's angle lies in [-pi/2, 0] and its shift in [w/2, 3w/4] for a fraction in [0,1]; unrotated at w/2 when shown, edge-on at 3w/4 when hidden |
| RootController.Launch | TaskChooser/Views/RootViewController.swift:53-83 | after loading, the offset is 0 (menu shown), paging is on and the menu is opaque and untransformed; an icon exists exactly when the detail controller loaded, and it is fully open; whether the menu controller loaded is recorded |
| RootController.UpdateViewVisibility | TaskChooser/Views/RootViewController.swift:169-173 | the opacity is 1 minus the fraction; for a fraction in [0,1] the opacity, angle and translation stay within their ranges |
| RootController.DidScroll | TaskChooser/Views/RootViewController.swift:177-184 | after a tick the visuals agree with the offset: paging is on iff offset < threshold, the opacity and the icon's open amount are both 1 minus the fraction and lie in [0,1]; the offset and detail pane are untouched |
| RootController.DidScrollFixesInSync | TaskChooser/Views/RootViewController.swift:177-184 | a tick leaves a state unchanged exactly when its visuals already agree with its offset |
| RootController.MoveMenu | TaskChooser/Views/RootViewController.swift:193-196 | moving the scroll view sets the offset to the target and changes nothing else |
| RootController.HideMenu | TaskChooser/Views/RootViewController.swift:198-200 | hiding lands on a rest position on the hidden side, changing only the offset |
| RootController.ShowMenu | TaskChooser/Views/RootViewController.swift:202-204 | showing lands on a rest position on the shown side, changing only the offset |
| RootController.DidEndDragging | TaskChooser/Views/RootViewController.swift:186-191 | a release past the threshold moves the offset to the menu width; at or below it the state is unchanged; either way the menu stays on its side |
| RootController.ToggleMenu | TaskChooser/Views/RootViewController.swift:206-213 | a toggle lands on one of the two rest positions, on the side opposite to the menu's, changing only the offset |
| RootController.ToggleAtThresholdHides | TaskChooser/Views/RootViewController.swift:206-213 | at exactly the threshold the menu counts as shown, so a toggle hides it |
| RootController.ToggleTwice | TaskChooser/Views/RootViewController.swift:193-213 | with a move taken as an instantaneous jump, two toggles come to rest on the side the menu started on, and from a rest position they restore the state exactly |
| RootController.ToggleThenTick | TaskChooser/Views/RootViewController.swift:177-213 | a toggle and the tick at its target leave the menu fully shown if it was hidden, and fully hidden otherwise |
| RootController.DidSelectMenuItem | TaskChooser/Views/RootViewController.swift:216-219 | a loaded detail pane then shows exactly the chosen item; nothing else changes, and nothing at all when the detail pane is absent |
| EventTrace.Step | TaskChooser/Views/RootViewController.swift:138-219 | only a scroll tick changes the paging flag, the menu's look and the icon; only a selection changes the detail pane; a tap with an icon installed lands at rest on the other side and a tap without one changes nothing; a selection without a menu controller changes nothing |
| EventTrace.LaunchCoherent | TaskChooser/Views/RootViewController.swift:67-84 | the state after loading satisfies the visual invariant |
| EventTrace.CoherentBounds | TaskChooser/Views/RootViewController.swift:151-173 | under the invariant, the menu's angle is in [-pi/2, 0] and its translation in [w/2, 3w/4] |
| EventTrace.StepCoherent | TaskChooser/Views/RootViewController.swift:176-219 | every handler keeps the invariant: opacity in [0,1], icon open amount equal to the opacity, icon present iff the detail pane is, transform matching the opacity |
| EventTrace.RunCoherent | TaskChooser/Views/RootViewController.swift:176-219 | any sequence of events keeps that invariant |
| EventTrace.RunAppend | TaskChooser/Views/RootViewController.swift:176-219 | dispatching two sequences in turn is dispatching their concatenation |
| EventTrace.EndsInSync | TaskChooser/Views/RootViewController.swift:177-184 | after any history that ends in a scroll tick, the offset is the tick's and the visuals agree with it |
| EventTrace.RunShowsLastSelection | TaskChooser/Views/RootViewController.swift:216-219 | with a menu controller, after any events the detail pane shows the last selected item, or its earlier item if none was selected; without one it keeps its item; an absent detail pane stays absent |
| EventTrace.PagingOnlyChangesOnTick | TaskChooser/Views/RootViewController.swift:177-179 | without a scroll tick among the events, the paging flag keeps its value |

## Left out

- The CATransform3D matrix itself is left out. That covers the perspective entry, `CATransform3DRotate`/`Concat` and the anchor point. The model keeps only the two scalars that build it, the angle and the x-translation. The matrix is trigonometry over a framework this model does not include.
- Layout and view construction are left out: `embedInsideSafeArea`, `installMenuContainer`, `installDetailContainer`, colours and the status-bar style. They are Auto Layout plumbing.
- Storyboard and navigation-controller installation are left out, including the fatal error on a missing storyboard identifier. Those are framework calls. A detail controller that fails its downcast is modelled as an absent detail pane.
- The hamburger icon's drawing and its tap recognizer are left out. Only the open amount passed to `setFractionOpen` is kept, and a tap is the `BurgerTapped` event.
- UIScrollView physics are left out: animation timing, deceleration, the paging snap and bounces. A move is an instantaneous jump, and the scroll view's ticks are events that carry any offset.
- MenuDataSource.swift is left out. Loading the bundled JSON is a file read plus `JSONDecoder`, and the table-view callbacks only count entries and index into them. Menu entries are a type parameter `Item`, because MenuItem.swift is not part of this model.
- Floating-point rounding of `CGFloat` is left out, and so is NaN behaviour in `Swift.min`/`Swift.max`. Arithmetic is exact over `real`.
- Launch: the item the detail controller shows before any selection is taken as a parameter, because DetailViewController.swift is not part of this model.
- The `decelerate` argument of the drag-end handler is accepted and ignored, as in the source.
