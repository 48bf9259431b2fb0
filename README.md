# Anchor geometry of egui-notify

egui-notify shows transient notifications ("toasts") in an egui
application. They stack from one corner of the screen or of a container
rectangle. This project models how that corner is chosen, in `src/anchor.rs`:

- the `Anchor` enum with its four corners;
- `anim_side`, the horizontal direction toasts slide in from;
- `screen_corner` and `rect_corner`, which pick a corner of the screen or
  of a rectangle;
- `apply_margin`, which moves the picked point inward by a margin vector.

egui's `Pos2`, `Vec2` and `Rect` are plain records in `egui.dfy`, with
real coordinates. egui's y axis grows downward, so a rectangle's top edge
is `min.y`. The rectangle accessors (`left_top`, `right_top`,
`left_bottom`, `right_bottom`) follow egui's conventions: `right_top` is
`(max.x, min.y)`, and so on.

The selection of a corner is specified by `Anchor.CornerOf`, which reads
the corner off the rectangle's extremes. The margin shift is specified by
`Anchor.Shift`, which encodes the sign table: a margin's x is subtracted
on the right and added on the left; its y is added at the top and
subtracted at the bottom. The methods `ApplyMargin`, `ScreenCorner` and
`RectCorner` follow the source step by step. Each is proved equal to those
functions. The lemmas state the properties of the functions.

## Model

| member | source | states |
|---|---|---|
| Anchors.Anchor.AnimSide | src/anchor.rs:18-23 | the slide direction is +1 exactly for the right-side anchors and -1 exactly for the left-side ones; no other value occurs |
| Anchors.Anchor.CornerOf | src/anchor.rs:40-49 | the corner read off a rectangle's extremes is egui's right_top, left_top, right_bottom or left_bottom for TopRight, TopLeft, BottomRight, BottomLeft, and lies inside any non-negative rectangle |
| Anchors.Anchor.ApplyMargin | src/anchor.rs:51-70 | the moved point is x - anim_side * margin.x horizontally, y + margin.y for top anchors and y - margin.y for bottom anchors, i.e. the sign table of Shift |
| Anchors.Anchor.ScreenCorner | src/anchor.rs:28-37 | the screen corner equals the corner of the rectangle from (0,0) to sc shifted by the margin: x is sc.x - margin.x on the right and margin.x on the left, y is margin.y at the top and sc.y - margin.y at the bottom; with a zero margin it is the exact geometric corner |
| Anchors.Anchor.RectCorner | src/anchor.rs:40-49 | the rectangle corner is the anchor's corner of the rectangle shifted by the margin; with a zero margin it is exactly that corner |
| Anchors.Anchor.ShiftZero | src/anchor.rs:51-70 | a zero margin leaves the point unchanged |
| Anchors.Anchor.ShiftCompose | src/anchor.rs:51-70 | applying margin m1 and then m2 is the same as applying m1 + m2 |
| Anchors.Anchor.ShiftUndo | src/anchor.rs:51-70 | applying m and then -m restores the original point |
| Anchors.Anchor.ShiftInward | src/anchor.rs:51-70 | a non-negative margin never moves the point outward: not right of a right corner, not left of a left one, not above a top one, not below a bottom one; a positive margin component moves it strictly on that axis |
| Anchors.Anchor.ShiftedCornerInside | src/anchor.rs:40-70 | a margin no larger than the rectangle's width and height keeps the resulting anchor point inside the rectangle |
| Anchors.CornersDistinct | src/anchor.rs:5-14 | on a rectangle with non-zero width and height, two anchors name the same corner exactly when they are the same anchor |
| Anchors.ShiftAllIsShiftByTotal | src/anchor.rs:51-70 | applying any sequence of margins one after another is the same as applying their sum once |

## Left out

- `f32` arithmetic: coordinates are exact reals, so rounding in `+=`/`-=` is not modelled.
- egui itself: `Pos2`, `Vec2`, `Rect` and `pos2` are plain records. The rectangle accessors are written with egui's conventions; egui's own code is not part of this model.
- Anchors.Anchor.ApplyMargin: the source updates a `Pos2` in place through a mutable reference. The method takes the point and returns the updated one instead. `Pos2` is a copied value and the reference is exclusive, so no aliasing is lost.
- The toast registry, the lifecycle and its timers, stacking and layout, `show`/`show_inside`, and the dismiss-all, dismiss-latest and dismiss-oldest calls are not part of this model. Their source files are not among those modelled.
- The demo application (`examples/all.rs`) is UI code over eframe/egui: windows, sliders, colour pickers, fonts and `run_native`.
