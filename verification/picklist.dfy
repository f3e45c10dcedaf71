/**
 The picklist widget as a state machine. The state is whether the menu is open and the ordered
 selection; each handler of the component (button click, button keydown, menu item click, menu
 close request, blur) is one event, and each deferred `setTimeout` body is a timer whose firing
 is a separate step. A step yields the next state, the caller notifications it fires in order,
 the focus moves it makes, and the timers it schedules.
 */
module Picklist {
  import opened Wrappers
  import opened Selection
  import opened Label

  /** The props that shape behaviour, after defaults are applied. */
  datatype Config = Config(multiSelect: bool, selectedText: Content)

  /** Applies the component's default props to the props the caller passed (None = not passed). */
  function MakeConfig(multiSelect: Option<bool>, selectedText: Option<Content>): (c: Config)
    ensures multiSelect.None? ==> !c.multiSelect
    ensures selectedText.None? ==> c.selectedText == DefaultSelectedText
    ensures multiSelect.Some? ==> c.multiSelect == multiSelect.value
    ensures selectedText.Some? ==> c.selectedText == selectedText.value
  {
    Config(multiSelect.GetOr(false), selectedText.GetOr(DefaultSelectedText))
  }

  datatype State<V> = State(isOpen: bool, value: seq<V>)

  /**
   The state a fresh component starts in. An omitted `defaultOpened` leaves the menu closed, since
   every read of the flag is a truthiness test; an omitted `defaultValue` is the empty selection.
   */
  function Init<V(==)>(defaultOpened: Option<bool>, defaultValue: Option<seq<V>>): (s: State<V>)
    ensures s.isOpen <==> defaultOpened == Some(true)
    ensures defaultValue.None? ==> s.value == []
    ensures defaultValue.Some? ==> s.value == defaultValue.value
  {
    State(defaultOpened.GetOr(false), defaultValue.GetOr([]))
  }

  const DownKey: int := 40
  const EscapeKey: int := 27

  /** The handlers the component installs. `FocusOut` is a blur of the button or of any menu item. */
  datatype Event<V> =
    | ButtonClick
    | ButtonKeyDown(keyCode: int)
    | ItemClick(picked: V)
    | MenuClose
    | FocusOut

  /**
   The deferred bodies: moving focus into the menu, closing after a single-select pick, and
   re-checking where focus went after a blur.
   */
  datatype Timer = FocusTimer | CloseTimer | BlurTimer

  /**
   Caller callbacks in the order they fire: `onChange` and `onSelect` with the picked value,
   `onComplete`, `onBlur`, and `onKeyDown` with the key code.
   */
  datatype Notice<V> = Change(value: V) | Select(value: V) | Complete | Blur | KeyDown(keyCode: int)

  /** DOM focus moves: into the menu's target item, or back to the button. */
  datatype Effect = FocusItem | FocusButton

  datatype Reaction<V> = Reaction(next: State<V>, notices: seq<Notice<V>>, focus: seq<Effect>, scheduled: seq<Timer>)

  /** The number of `onComplete` notifications in a trace. */
  function Completions<V(==)>(notices: seq<Notice<V>>): nat {
    multiset(notices)[Complete]
  }

  /**
   The reaction to one handler call.
   Only an item click changes the selection; only Escape fires `onComplete` synchronously;
   a keydown's `onKeyDown` comes last; a close is scheduled exactly by a single-select pick.
   */
  function Step<V(==)>(cfg: Config, s: State<V>, e: Event<V>): (r: Reaction<V>)
    ensures r.next.value != s.value ==> e.ItemClick?
    ensures e.ItemClick? ==> r.next.value == Pick(cfg.multiSelect, s.value, e.picked)
    ensures e.ItemClick? ==> r.notices == [Change(e.picked), Select(e.picked)] && r.next.isOpen == s.isOpen
    ensures Complete in r.notices <==> e == ButtonKeyDown(EscapeKey)
    ensures e.ButtonKeyDown? ==> |r.notices| >= 1 && r.notices[|r.notices| - 1] == KeyDown(e.keyCode)
    ensures CloseTimer in r.scheduled <==> e.ItemClick? && !cfg.multiSelect
    ensures BlurTimer in r.scheduled <==> e.FocusOut?
    ensures e.FocusOut? ==> r.next == s && r.notices == []
  {
    match e
    case ButtonClick =>
      Reaction(s.(isOpen := !s.isOpen), [], [], [FocusTimer])
    case ButtonKeyDown(k) =>
      if k == DownKey then
        if !s.isOpen then Reaction(s.(isOpen := true), [KeyDown(k)], [], [FocusTimer])
        else Reaction(s, [KeyDown(k)], [FocusItem], [])
      else if k == EscapeKey then
        Reaction(s.(isOpen := false), [Complete, KeyDown(k)], [], [])
      else
        Reaction(s, [KeyDown(k)], [], [])
    case ItemClick(v) =>
      Reaction(s.(value := Pick(cfg.multiSelect, s.value, v)), [Change(v), Select(v)], [],
               if cfg.multiSelect then [] else [CloseTimer])
    case MenuClose =>
      Reaction(s.(isOpen := false), [], [FocusButton], [])
    case FocusOut =>
      Reaction(s, [], [], [BlurTimer])
  }

  /**
   The body of a deferred timer when it fires; focusInside is whether the document's focused
   element then lies inside the component. No timer body changes the selection or schedules more.
   */
  function Fire<V(==)>(cfg: Config, s: State<V>, t: Timer, focusInside: bool): (r: Reaction<V>)
    ensures r.next.value == s.value
    ensures r.scheduled == []
    ensures r.next.isOpen != s.isOpen ==> s.isOpen && t != FocusTimer
    ensures Completions(r.notices) <= 1
    ensures Complete in r.notices <==> t == CloseTimer || (t == BlurTimer && !focusInside)
    ensures t == FocusTimer ==> r.next == s && r.notices == []
    ensures t == BlurTimer && focusInside ==> r.next == s && r.notices == []
    ensures t == CloseTimer || (t == BlurTimer && !focusInside) ==> !r.next.isOpen
  {
    match t
    case FocusTimer =>
      Reaction(s, [], if s.isOpen then [FocusItem] else [], [])
    case CloseTimer =>
      Reaction(s.(isOpen := false), [Complete], [FocusButton], [])
    case BlurTimer =>
      if focusInside then Reaction(s, [], [], [])
      else Reaction(s.(isOpen := false), [Blur, Complete], [], [])
  }

  /** A button click flips the open flag, notifies nobody, and defers moving focus into the menu. */
  lemma ClickToggles<V>(cfg: Config, s: State<V>)
    ensures Step(cfg, s, ButtonClick).next == State(!s.isOpen, s.value)
    ensures Step(cfg, s, ButtonClick).notices == []
    ensures Step(cfg, s, ButtonClick).scheduled == [FocusTimer]
  {
  }

  /**
   The down arrow always leaves the menu open: from closed it opens and defers the focus move,
   from open it moves focus at once. The key is forwarded to `onKeyDown`.
   */
  lemma DownArrowOpens<V>(cfg: Config, s: State<V>)
    ensures Step(cfg, s, ButtonKeyDown(DownKey)).next == State(true, s.value)
    ensures Step(cfg, s, ButtonKeyDown(DownKey)).notices == [KeyDown(DownKey)]
    ensures s.isOpen ==> Step(cfg, s, ButtonKeyDown(DownKey)).focus == [FocusItem]
    ensures !s.isOpen ==> Step(cfg, s, ButtonKeyDown(DownKey)).scheduled == [FocusTimer]
    ensures s.isOpen ==> Step(cfg, s, ButtonKeyDown(DownKey)).scheduled == []
    ensures !s.isOpen ==> Step(cfg, s, ButtonKeyDown(DownKey)).focus == []
  {
  }

  /** Escape closes the menu and fires `onComplete` exactly once, before forwarding the key. */
  lemma EscapeCompletesOnce<V>(cfg: Config, s: State<V>)
    ensures Step(cfg, s, ButtonKeyDown(EscapeKey)).next == State(false, s.value)
    ensures Step(cfg, s, ButtonKeyDown(EscapeKey)).notices == [Complete, KeyDown(EscapeKey)]
    ensures Completions(Step(cfg, s, ButtonKeyDown(EscapeKey)).notices) == 1
  {
  }

  /** Any other key changes nothing and is only forwarded to `onKeyDown`. */
  lemma OtherKeyForwarded<V>(cfg: Config, s: State<V>, k: int)
    requires k != DownKey && k != EscapeKey
    ensures Step(cfg, s, ButtonKeyDown(k)) == Reaction(s, [KeyDown(k)], [], [])
  {
  }

  /** A blur only queues the re-check: the state is untouched and nobody is notified yet. */
  lemma FocusOutOnlySchedules<V>(cfg: Config, s: State<V>)
    ensures Step(cfg, s, FocusOut) == Reaction(s, [], [], [BlurTimer])
  {
  }

  /** The menu's close request closes it and returns focus to the button, with no notification. */
  lemma MenuCloseIsSilent<V>(cfg: Config, s: State<V>)
    ensures Step(cfg, s, MenuClose) == Reaction(State(false, s.value), [], [FocusButton], [])
  {
  }

  /**
   The blur re-check: with focus gone elsewhere the menu closes and `onBlur` then `onComplete`
   fire; with focus still inside nothing happens.
   */
  lemma BlurCheck<V>(cfg: Config, s: State<V>, focusInside: bool)
    ensures !focusInside ==> Fire(cfg, s, BlurTimer, focusInside).next == State(false, s.value)
    ensures !focusInside ==> Fire(cfg, s, BlurTimer, focusInside).notices == [Blur, Complete]
    ensures focusInside ==> Fire(cfg, s, BlurTimer, focusInside) == Reaction(s, [], [], [])
  {
  }

  /** The delayed close after a single-select pick: closed, one `onComplete`, focus back on the button. */
  lemma PickTimeoutCloses<V>(cfg: Config, s: State<V>, focusInside: bool)
    ensures Fire(cfg, s, CloseTimer, focusInside) == Reaction(State(false, s.value), [Complete], [FocusButton], [])
  {
  }

  /** One option as the open menu renders it: the option and its selected (check mark) flag. */
  datatype ItemView<V> = ItemView(item: Item<V>, selected: bool)

  /**
   The menu as rendered: nothing while closed; while open, every declared option in order, each
   flagged selected exactly when its value is in the selection.
   */
  function MenuView<V(==)>(s: State<V>, items: seq<Item<V>>): (m: Option<seq<ItemView<V>>>)
    ensures m.Some? <==> s.isOpen
    ensures m.Some? ==> |m.value| == |items|
    ensures m.Some? ==> forall i :: 0 <= i < |items| ==>
                          m.value[i].item == items[i] && (m.value[i].selected <==> items[i].value in s.value)
  {
    if s.isOpen then Some(seq(|items|, i requires 0 <= i < |items| => ItemView(items[i], IsSelected(s.value, items[i].value))))
    else None
  }

  /** Why rendering the open menu fails. */
  datatype RenderError = UnboundThis

  /**
   The menu as the code is written: the per-option callback is handed to `React.Children.map`
   unbound, so inside it `this` is undefined and reading `this.state` throws as soon as one
   option is rendered. A closed menu, or an open one with no options, renders as intended.
   */
  function MenuViewAsWritten<V(==)>(s: State<V>, items: seq<Item<V>>): (r: Result<Option<seq<ItemView<V>>>, RenderError>)
    ensures r.Failure? <==> s.isOpen && |items| > 0
    ensures r.Success? ==> r.value == MenuView(s, items)
  {
    if s.isOpen && |items| > 0 then Failure(UnboundThis) else Success(MenuView(s, items))
  }

  /** The smallest failing case: an open menu with one option cannot render, so no item can be clicked. */
  lemma OpenMenuWithOneOptionThrows<V>(v: V)
    ensures MenuViewAsWritten(State(true, []), [Item(v, Absent, Absent)]).Failure?
    ensures MenuView(State(true, []), [Item(v, Absent, Absent)]) == Some([ItemView(Item(v, Absent, Absent), false)])
  {
    var m := MenuView(State(true, []), [Item(v, Absent, Absent)]);
    assert |m.value| == 1 && m.value[0] == ItemView(Item(v, Absent, Absent), false);
    assert m.value == [ItemView(Item(v, Absent, Absent), false)];
  }

  /** The button's caption for a state: the selected-item label, or a non-breaking space when that is falsy. */
  function ButtonCaption<V(==)>(cfg: Config, s: State<V>, items: seq<Item<V>>): (c: Content)
    ensures Truthy(c)
    ensures |s.value| == 0 && Truthy(cfg.selectedText) ==> c == cfg.selectedText
    ensures Truthy(SelectedItemLabel(s.value, items, cfg.selectedText)) ==> c == SelectedItemLabel(s.value, items, cfg.selectedText)
    ensures !Truthy(SelectedItemLabel(s.value, items, cfg.selectedText)) ==> c == Nbsp
  {
    Caption(SelectedItemLabel(s.value, items, cfg.selectedText))
  }

  /** Which optional callbacks the caller supplied. */
  datatype Handlers = Handlers(onChange: bool, onSelect: bool, onComplete: bool, onBlur: bool, onKeyDown: bool)

  predicate Handles<V(==)>(h: Handlers, n: Notice<V>) {
    match n
    case Change(_) => h.onChange
    case Select(_) => h.onSelect
    case Complete => h.onComplete
    case Blur => h.onBlur
    case KeyDown(_) => h.onKeyDown
  }

  /**
   The callbacks actually invoked for a trace: each notification whose callback was supplied,
   in order; the rest are skipped.
   */
  function Deliver<V(==)>(h: Handlers, notices: seq<Notice<V>>): (r: seq<Notice<V>>)
    ensures |r| <= |notices|
    ensures forall i :: 0 <= i < |r| ==> r[i] in notices && Handles(h, r[i])
    ensures forall i :: 0 <= i < |notices| && Handles(h, notices[i]) ==> notices[i] in r
    decreases |notices|
  {
    if notices == [] then []
    else if Handles(h, notices[0]) then [notices[0]] + Deliver(h, notices[1..])
    else Deliver(h, notices[1..])
  }

  /** Delivering two traces one after the other is delivering their concatenation. */
  lemma {:induction false} DeliverAppend<V>(h: Handlers, a: seq<Notice<V>>, b: seq<Notice<V>>)
    ensures Deliver(h, a + b) == Deliver(h, a) + Deliver(h, b)
    decreases |a|
  {
    if a != [] {
      assert (a + b)[1..] == a[1..] + b;
      DeliverAppend(h, a[1..], b);
    } else {
      assert a + b == b;
    }
  }
}
