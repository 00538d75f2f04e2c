/** The dialog (`Modal`): whether it renders, which footer it shows, the
    CSS sizes of its box, and which callback a click runs. */
module Modal {
  import opened JsValues

  /** A size prop: a number of pixels or a CSS string. */
  datatype Dimension = Px(n: int) | Css(s: string)

  /** What the `actions` prop holds; `None` is `undefined`. A node is
      reduced to its truthiness. */
  datatype Node = FalsyNode | SomeNode

  datatype Props = Props(
    open: bool, persistent: bool,
    maxWidth: Dimension, minWidth: Option<Dimension>,
    maxHeight: Dimension, minHeight: Option<Dimension>,
    showDefaultActions: bool, hideActions: bool, actions: Option<Node>,
    closeIcon: bool, submitLabel: string, cancelLabel: string)

  /** The props a caller leaves at their defaults, with `open` and
      `actions` as given. */
  function Defaults(open: bool, actions: Option<Node>): Props
  {
    Props(open, false, Px(500), None, Css("90vh"), None, true, false, actions, true, "Submit", "Cancel")
  }

  /** `typeof d === 'number' ? `${d}px` : d` */
  function CssSize(d: Dimension): (r: string)
    ensures d.Css? ==> r == d.s
    ensures d.Px? ==> r == IntToString(d.n) + "px"
  {
    match d
    case Px(n) => IntToString(n) + "px"
    case Css(s) => s
  }

  predicate DimensionTruthy(d: Option<Dimension>)
  {
    match d
    case None => false
    case Some(Px(n)) => n != 0
    case Some(Css(s)) => s != ""
  }

  /** `d ? CssSize(d) : undefined`, the rule for the minimum sizes. */
  function OptionalCssSize(d: Option<Dimension>): (r: Option<string>)
    ensures !DimensionTruthy(d) ==> r.None?
    ensures DimensionTruthy(d) ==> r == Some(CssSize(d.value))
  {
    if DimensionTruthy(d) then Some(CssSize(d.value)) else None
  }

  datatype Style = Style(maxWidth: string, minWidth: Option<string>, maxHeight: string, minHeight: Option<string>)

  function BoxStyle(p: Props): Style
  {
    Style(CssSize(p.maxWidth), OptionalCssSize(p.minWidth), CssSize(p.maxHeight), OptionalCssSize(p.minHeight))
  }

  /** No pixel size renders as the empty string, so a set size is never
      dropped from the style. */
  lemma PixelsNeverEmpty(d: Dimension)
    ensures d.Px? ==> |CssSize(d)| >= 3 && CssSize(d)[|CssSize(d)| - 2..] == "px"
  {
  }

  /** `finalActions`: no footer when hidden, else the caller's actions
      when given, else the Cancel/Submit pair when the defaults are on. */
  datatype Footer = NoFooter | GivenActions(node: Node) | DefaultActions(cancelLabel: string, submitLabel: string)

  function FinalActions(p: Props): (f: Footer)
    ensures p.hideActions ==> f == NoFooter
    ensures !p.hideActions && p.actions.Some? ==> f == GivenActions(p.actions.value)
    ensures !p.hideActions && p.actions.None? ==>
      f == if p.showDefaultActions then DefaultActions(p.cancelLabel, p.submitLabel) else NoFooter
  {
    if p.hideActions then NoFooter
    else if p.actions.Some? then GivenActions(p.actions.value)
    else if p.showDefaultActions then DefaultActions(p.cancelLabel, p.submitLabel)
    else NoFooter
  }

  /** `finalActions && …`: the footer renders only for a truthy value. */
  predicate FooterShown(f: Footer)
  {
    f.DefaultActions? || (f.GivenActions? && f.node == SomeNode)
  }

  /** What renders: nothing for a closed dialog. */
  datatype View = View(style: Style, footer: Footer, closeButton: bool)

  function Render(p: Props): (r: Option<View>)
    ensures !p.open <==> r.None?
    ensures r.Some? ==> r.value.style == BoxStyle(p) && r.value.footer == FinalActions(p) && r.value.closeButton == p.closeIcon
  {
    if !p.open then None else Some(View(BoxStyle(p), FinalActions(p), p.closeIcon))
  }

  /** A click in the dialog; `OverlayClick(onOverlay)` tells whether the
      target was the overlay itself rather than something inside it. */
  datatype Click = OverlayClick(onOverlay: bool) | BoxClick | CloseButton | CancelButton | SubmitButton

  datatype Callback = OnClose | OnSubmit

  /** The callback a click runs: the overlay closes a non-persistent
      dialog when clicked itself, clicks in the box stop there, Cancel and
      the close button close, Submit submits. A click on a button the
      dialog does not show, or any click on a closed dialog, runs nothing. */
  function Respond(p: Props, click: Click): (r: Option<Callback>)
    ensures !p.open ==> r.None?
    ensures p.open && click.OverlayClick? ==> (r == Some(OnClose) <==> click.onOverlay && !p.persistent)
    ensures r == Some(OnSubmit) ==> click == SubmitButton
  {
    if !p.open then None
    else match click
      case OverlayClick(onOverlay) => if onOverlay && !p.persistent then Some(OnClose) else None
      case BoxClick => None
      case CloseButton => if p.closeIcon then Some(OnClose) else None
      case CancelButton => if FinalActions(p).DefaultActions? then Some(OnClose) else None
      case SubmitButton => if FinalActions(p).DefaultActions? then Some(OnSubmit) else None
  }

  /** A persistent dialog closes only through its buttons. */
  lemma PersistentIgnoresOverlay(p: Props, click: Click)
    requires p.persistent
    ensures Respond(p, click) == Some(OnClose) ==> click == CloseButton || click == CancelButton
  {
  }

  /** With the defaults an open dialog shows Cancel and Submit, and they
      close and submit it. */
  lemma DefaultsShowButtons(actions: Option<Node>)
    requires actions.None?
    ensures FooterShown(FinalActions(Defaults(true, actions)))
    ensures Respond(Defaults(true, actions), CancelButton) == Some(OnClose)
    ensures Respond(Defaults(true, actions), SubmitButton) == Some(OnSubmit)
    ensures BoxStyle(Defaults(true, actions)) == Style("500px", None, "90vh", None)
  {
    assert IntToString(500) == "500" by {
      assert NatToString(500) == "500";
    }
  }
}
