/** The quick-view dialog (components/QuickViewModal.tsx) together with the
    page state that mounts it.

    The dialog is mounted while the page holds a product to show; each
    mount starts from fresh state. Adding to the bag schedules a callback
    that, 1.5 seconds later, clears the confirmation and calls `onClose`,
    which hides whatever dialog is showing. Time is not modelled: a pending
    callback runs when a `TimerFires` event occurs, oldest first (equal
    delays fire in scheduling order). Closing does not cancel pending
    callbacks. */
module QuickView {
  import opened Types

  datatype Size = XS | S | M | L | XL

  /** The size buttons, in display order. */
  const Sizes: seq<Size> := [XS, S, M, L, XL]

  /** One mounted dialog. `mount` tells mounts apart; `selectedSize` is
      `None` while the size string is still empty. */
  datatype Dialog = Dialog(product: Product, mount: nat, selectedSize: Option<Size>, isAdded: bool)

  /** The page's dialog slot, the next mount number, and the mounts whose
      callbacks are still pending, oldest first. */
  datatype World = World(dialog: Option<Dialog>, nextMount: nat, timers: seq<nat>)

  datatype Event =
    | ShowProduct(product: Product)
    | SelectSize(size: Size)
    | AddToCart
    | TimerFires
    | Dismiss

  const Initial: World := World(None, 0, [])

  /** A fresh dialog: no size chosen, nothing added. */
  function Mount(product: Product, mount: nat): (d: Dialog)
    ensures d.selectedSize.None? && !d.isAdded && d.product == product
  {
    Dialog(product, mount, None, false)
  }

  /** Every size has a button. */
  lemma EverySizeListed(s: Size)
    ensures s in Sizes
  {
    match s
    case XS => assert Sizes[0] == XS;
    case S => assert Sizes[1] == S;
    case M => assert Sizes[2] == M;
    case L => assert Sizes[3] == L;
    case XL => assert Sizes[4] == XL;
  }

  /** Whether the "Add to Cart" button is enabled: one of the size buttons
      has been chosen. */
  function AddEnabled(d: Dialog): (enabled: bool)
    ensures enabled <==> d.selectedSize.Some? && d.selectedSize.value in Sizes
  {
    match d.selectedSize
    case None => false
    case Some(s) => EverySizeListed(s); true
  }

  /** `handleAddToCart` on a mounted dialog: with no size it returns at
      once; otherwise it sets the confirmation and schedules one callback. */
  function AddToCartStep(w: World, d: Dialog): (r: World)
    requires w.dialog == Some(d)
    ensures d.selectedSize.None? ==> r == w
    ensures d.selectedSize.Some? ==>
      && r.dialog == Some(d.(isAdded := true))
      && r.timers == w.timers + [d.mount]
      && r.nextMount == w.nextMount
  {
    if d.selectedSize.None? then w
    else w.(dialog := Some(d.(isAdded := true)), timers := w.timers + [d.mount])
  }

  /** The pending callback runs: it clears the confirmation of the dialog
      that scheduled it (if that dialog is still mounted) and then calls
      `onClose`, which hides whichever dialog is showing. */
  function TimerStep(w: World): (r: World)
    requires |w.timers| > 0
    ensures r.dialog.None?
    ensures r.timers == w.timers[1..]
  {
    World(None, w.nextMount, w.timers[1..])
  }

  /** How the world reacts to one event, as the code is written. */
  function Step(w: World, e: Event): (r: World)
    ensures r.nextMount >= w.nextMount
    ensures || r.timers == w.timers
            || (|w.timers| > 0 && r.timers == w.timers[1..])
            || (w.dialog.Some? && r.timers == w.timers + [w.dialog.value.mount])
    ensures w.dialog.Some? && r.dialog.Some? ==>
      r.dialog.value.product == w.dialog.value.product && r.dialog.value.mount == w.dialog.value.mount
    ensures w.dialog.None? && r.dialog.Some? ==>
      e.ShowProduct? && r.dialog.value == Mount(e.product, w.nextMount) && r.nextMount == w.nextMount + 1
  {
    match e
    case ShowProduct(p) =>
      if w.dialog.None? then w.(dialog := Some(Mount(p, w.nextMount)), nextMount := w.nextMount + 1)
      else w
    case SelectSize(s) =>
      if w.dialog.None? then w
      else w.(dialog := Some(w.dialog.value.(selectedSize := Some(s))))
    case AddToCart =>
      if w.dialog.None? then w else AddToCartStep(w, w.dialog.value)
    case TimerFires =>
      if |w.timers| == 0 then w else TimerStep(w)
    case Dismiss =>
      w.(dialog := None)
  }

  /** Choosing a size records it and leaves the confirmation as it was. */
  lemma SelectSizeKeepsConfirmation(w: World, s: Size)
    requires w.dialog.Some?
    ensures Step(w, SelectSize(s)).dialog == Some(w.dialog.value.(selectedSize := Some(s)))
    ensures Step(w, SelectSize(s)).dialog.value.isAdded == w.dialog.value.isAdded
    ensures Step(w, SelectSize(s)).dialog.value.selectedSize.value in Sizes
  {
  }

  /** "Add to Cart" is enabled exactly when adding does something. */
  lemma AddEnabledIffAddActs(w: World)
    requires w.dialog.Some?
    ensures AddEnabled(w.dialog.value) <==> Step(w, AddToCart) != w
  {
  }

  /** The backdrop and the close button close the dialog from any state,
      and leave pending callbacks pending. */
  lemma DismissAlwaysCloses(w: World)
    ensures Step(w, Dismiss).dialog.None?
    ensures Step(w, Dismiss).timers == w.timers
  {
  }

  /** Whether every pending callback was scheduled by the dialog now
      showing. */
  predicate TimersBelongToShownDialog(w: World) {
    |w.timers| == 0 ||
    (w.dialog.Some? && forall i :: 0 <= i < |w.timers| ==> w.timers[i] == w.dialog.value.mount)
  }

  /** As written, a callback scheduled by one dialog outlives it and closes
      a different dialog opened after the first was dismissed. */
  lemma StaleTimerClosesLaterDialog(a: Product, b: Product, s: Size)
    ensures
      var w1 := Step(Step(Step(Initial, ShowProduct(a)), SelectSize(s)), AddToCart);
      var w2 := Step(Step(w1, Dismiss), ShowProduct(b));
      && w2.dialog == Some(Mount(b, 1))
      && w2.timers == [0]
      && !TimersBelongToShownDialog(w2)
      && Step(w2, TimerFires).dialog.None?
  {
    var w0 := Step(Initial, ShowProduct(a));
    assert w0 == World(Some(Mount(a, 0)), 1, []);
    var w1 := Step(Step(w0, SelectSize(s)), AddToCart);
    assert w1 == World(Some(Dialog(a, 0, Some(s), true)), 1, [0]);
    var w2 := Step(Step(w1, Dismiss), ShowProduct(b));
    assert w2 == World(Some(Mount(b, 1)), 2, [0]);
    assert w2.timers[0] != w2.dialog.value.mount;
  }

  // ---------------------------------------------------------------------
  // Corrected behaviour: pending callbacks die with their dialog
  // ---------------------------------------------------------------------

  /** `timers` without the callbacks of mount `m`. */
  function Cancel(timers: seq<nat>, m: nat): (r: seq<nat>)
    ensures forall i :: 0 <= i < |r| ==> r[i] != m && r[i] in timers
  {
    if |timers| == 0 then []
    else (if timers[0] == m then [] else [timers[0]]) + Cancel(timers[1..], m)
  }

  /** Unmounting the shown dialog cancels its pending callbacks. */
  function Unmount(w: World, timers: seq<nat>): World {
    match w.dialog
    case None => World(None, w.nextMount, timers)
    case Some(d) => World(None, w.nextMount, Cancel(timers, d.mount))
  }

  /** The step with the cancellation the dialog is meant to have: whatever
      closes the dialog also cancels the callbacks it scheduled. */
  function StepCancelling(w: World, e: Event): World {
    match e
    case Dismiss => Unmount(w, w.timers)
    case TimerFires => if |w.timers| == 0 then w else Unmount(w, w.timers[1..])
    case _ => Step(w, e)
  }

  lemma CancelAll(timers: seq<nat>, m: nat)
    requires forall i :: 0 <= i < |timers| ==> timers[i] == m
    ensures Cancel(timers, m) == []
  {
    if |timers| > 0 {
      CancelAll(timers[1..], m);
    }
  }

  /** With cancellation, every pending callback belongs to the dialog now
      showing, whatever happens. */
  lemma CancellingKeepsTimersOwned(w: World, e: Event)
    requires TimersBelongToShownDialog(w)
    ensures TimersBelongToShownDialog(StepCancelling(w, e))
  {
    match e
    case Dismiss =>
      if w.dialog.Some? { CancelAll(w.timers, w.dialog.value.mount); }
    case TimerFires =>
      if |w.timers| > 0 {
        CancelAll(w.timers[1..], w.dialog.value.mount);
      }
    case ShowProduct(p) =>

    case SelectSize(s) =>
    case AddToCart =>
  }

  /** With cancellation, a firing callback only ever closes the dialog that
      scheduled it. */
  lemma CancellingTimerClosesOwnDialog(w: World)
    requires TimersBelongToShownDialog(w) && |w.timers| > 0
    ensures w.dialog.Some? && w.timers[0] == w.dialog.value.mount
    ensures StepCancelling(w, TimerFires).dialog.None?
    ensures StepCancelling(w, TimerFires).timers == []
  {
    CancelAll(w.timers[1..], w.dialog.value.mount);
  }
}
