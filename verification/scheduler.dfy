/**
 The picklist together with its outstanding timers. User events run their handler and queue the
 timers it schedules; the environment may fire any queued timer at any later point, telling it
 whether focus is then inside the component. Real delays are not modelled, so every firing order
 is allowed, which covers the orders the 10 ms and 200 ms delays produce.
 */
module Scheduler {
  import opened Wrappers
  import opened Selection
  import opened Label
  import opened Picklist

  datatype Machine<V> = Machine(state: State<V>, pending: seq<Timer>)

  /** A handler call, or the firing of the index-th queued timer. */
  datatype Input<V> = User(event: Event<V>) | Elapse(index: nat, focusInside: bool)

  datatype Outcome<V> = Outcome(machine: Machine<V>, notices: seq<Notice<V>>)

  /** One input. Firing a timer removes it from the queue; an index with no timer does nothing. */
  function Apply<V(==)>(cfg: Config, m: Machine<V>, input: Input<V>): (o: Outcome<V>)
    ensures input.User? ==> |o.machine.pending| >= |m.pending| && o.machine.pending[..|m.pending|] == m.pending
    ensures input.Elapse? && input.index < |m.pending| ==>
              multiset(o.machine.pending) + multiset{m.pending[input.index]} == multiset(m.pending)
    ensures input.Elapse? && input.index >= |m.pending| ==> o == Outcome(m, [])
    ensures input.Elapse? ==> o.machine.state.value == m.state.value
  {
    match input
    case User(e) =>
      var r := Step(cfg, m.state, e);
      Outcome(Machine(r.next, m.pending + r.scheduled), r.notices)
    case Elapse(i, focusInside) =>
      if i < |m.pending| then
        var r := Fire(cfg, m.state, m.pending[i], focusInside);
        assert m.pending == m.pending[..i] + [m.pending[i]] + m.pending[i + 1..];
        Outcome(Machine(r.next, m.pending[..i] + m.pending[i + 1..]), r.notices)
      else Outcome(m, [])
  }

  /** A sequence of inputs applied in order, with the notifications of all of them in order. */
  function Run<V(==)>(cfg: Config, m: Machine<V>, inputs: seq<Input<V>>): Outcome<V>
    decreases |inputs|
  {
    if inputs == [] then Outcome(m, [])
    else
      var o := Apply(cfg, m, inputs[0]);
      var rest := Run(cfg, o.machine, inputs[1..]);
      Outcome(rest.machine, o.notices + rest.notices)
  }

  predicate IsPick<V>(input: Input<V>) {
    input.User? && input.event.ItemClick?
  }

  predicate IsEscape<V>(input: Input<V>) {
    input == User(ButtonKeyDown(EscapeKey))
  }

  /** Whether this input fires a timer while focus is outside the component. */
  predicate IsOutsideElapse<V>(input: Input<V>) {
    input.Elapse? && !input.focusInside
  }

  /** The item clicks that pick each value of picks in turn. */
  function Clicks<V>(picks: seq<V>): (inputs: seq<Input<V>>)
    ensures |inputs| == |picks|
    ensures forall i :: 0 <= i < |picks| ==> inputs[i] == User(ItemClick(picks[i]))
  {
    seq(|picks|, i requires 0 <= i < |picks| => User(ItemClick(picks[i])))
  }

  /** The selection changes only through item clicks: a run without one leaves it as it was. */
  lemma {:induction false} RunWithoutPicksKeepsSelection<V>(cfg: Config, m: Machine<V>, inputs: seq<Input<V>>)
    requires forall i :: 0 <= i < |inputs| ==> !IsPick(inputs[i])
    ensures Run(cfg, m, inputs).machine.state.value == m.state.value
    decreases |inputs|
  {
    if inputs != [] {
      var o := Apply(cfg, m, inputs[0]);
      assert !IsPick(inputs[0]);
      RunWithoutPicksKeepsSelection(cfg, o.machine, inputs[1..]);
    }
  }

  /** In single-select mode a selection of at most one value stays so through any run. */
  lemma {:induction false} RunSingleKeepsAtMostOne<V>(cfg: Config, m: Machine<V>, inputs: seq<Input<V>>)
    requires !cfg.multiSelect
    requires |m.state.value| <= 1
    ensures |Run(cfg, m, inputs).machine.state.value| <= 1
    decreases |inputs|
  {
    if inputs != [] {
      var o := Apply(cfg, m, inputs[0]);
      RunSingleKeepsAtMostOne(cfg, o.machine, inputs[1..]);
    }
  }

  /** In single-select mode, once anything has been picked exactly one value is selected. */
  lemma {:induction false} RunSingleAfterPickHoldsOne<V>(cfg: Config, m: Machine<V>, inputs: seq<Input<V>>, v: V)
    requires !cfg.multiSelect
    ensures |Run(cfg, m, [User(ItemClick(v))] + inputs).machine.state.value| == 1
  {
    var all := [User(ItemClick(v))] + inputs;
    assert all[1..] == inputs;
    var o := Apply(cfg, m, all[0]);
    assert o.machine.state.value == [v];
    RunSingleKeepsAtMostOne(cfg, o.machine, inputs);
    RunKeepsNonEmpty(cfg, o.machine, inputs);
  }

  /** No input empties a non-empty selection in single-select mode. */
  lemma {:induction false} RunKeepsNonEmpty<V>(cfg: Config, m: Machine<V>, inputs: seq<Input<V>>)
    requires !cfg.multiSelect
    requires |m.state.value| >= 1
    ensures |Run(cfg, m, inputs).machine.state.value| >= 1
    decreases |inputs|
  {
    if inputs != [] {
      var o := Apply(cfg, m, inputs[0]);
      RunKeepsNonEmpty(cfg, o.machine, inputs[1..]);
    }
  }

  /** In multi-select mode a duplicate-free selection stays duplicate-free through any run. */
  lemma {:induction false} RunMultiKeepsNoDup<V>(cfg: Config, m: Machine<V>, inputs: seq<Input<V>>)
    requires cfg.multiSelect
    requires NoDup(m.state.value)
    ensures NoDup(Run(cfg, m, inputs).machine.state.value)
    decreases |inputs|
  {
    if inputs != [] {
      var o := Apply(cfg, m, inputs[0]);
      RunMultiKeepsNoDup(cfg, o.machine, inputs[1..]);
    }
  }

  /** In multi-select mode a run of item clicks applies the toggle rule once per click, in order. */
  lemma {:induction false} RunMultiClicksToggle<V>(cfg: Config, m: Machine<V>, picks: seq<V>)
    requires cfg.multiSelect
    ensures Run(cfg, m, Clicks(picks)).machine.state.value == ToggleAll(m.state.value, picks)
    decreases |picks|
  {
    if picks != [] {
      var o := Apply(cfg, m, Clicks(picks)[0]);
      assert Clicks(picks)[1..] == Clicks(picks[1..]);
      RunMultiClicksToggle(cfg, o.machine, picks[1..]);
    }
  }

  /** The values picked by the item clicks of a run, in order; every other input contributes nothing. */
  function PickedValues<V>(inputs: seq<Input<V>>): (picks: seq<V>)
    ensures |picks| <= |inputs|
    decreases |inputs|
  {
    if inputs == [] then []
    else if IsPick(inputs[0]) then [inputs[0].event.picked] + PickedValues(inputs[1..])
    else PickedValues(inputs[1..])
  }

  /**
   In multi-select mode any run, whatever keys, blurs, closes and timer firings it interleaves,
   leaves the selection its item clicks alone produce under the toggle rule.
   */
  lemma {:induction false} RunMultiFollowsPicks<V>(cfg: Config, m: Machine<V>, inputs: seq<Input<V>>)
    requires cfg.multiSelect
    ensures Run(cfg, m, inputs).machine.state.value == ToggleAll(m.state.value, PickedValues(inputs))
    decreases |inputs|
  {
    if inputs != [] {
      var o := Apply(cfg, m, inputs[0]);
      RunMultiFollowsPicks(cfg, o.machine, inputs[1..]);
      if IsPick(inputs[0]) {
        var picks := [inputs[0].event.picked] + PickedValues(inputs[1..]);
        assert picks[1..] == PickedValues(inputs[1..]);
      }
    }
  }

  /**
   In multi-select mode, from a duplicate-free selection, any run ends duplicate-free with
   exactly the values that were selected at the start xor clicked an odd number of times.
   */
  lemma RunMultiSelectsOddlyPicked<V>(cfg: Config, m: Machine<V>, inputs: seq<Input<V>>)
    requires cfg.multiSelect
    requires NoDup(m.state.value)
    ensures NoDup(Run(cfg, m, inputs).machine.state.value)
    ensures forall x :: x in Run(cfg, m, inputs).machine.state.value
                        <==> ((x in m.state.value) != PickedOddly(PickedValues(inputs), x))
  {
    RunMultiFollowsPicks(cfg, m, inputs);
    ToggleAllIsParity(m.state.value, PickedValues(inputs));
  }

  /** In multi-select mode no delayed close is ever queued. */
  lemma {:induction false} RunMultiNeverQueuesClose<V>(cfg: Config, m: Machine<V>, inputs: seq<Input<V>>)
    requires cfg.multiSelect
    requires CloseTimer !in m.pending
    ensures CloseTimer !in Run(cfg, m, inputs).machine.pending
    decreases |inputs|
  {
    if inputs != [] {
      var o := Apply(cfg, m, inputs[0]);
      assert CloseTimer !in o.machine.pending by {
        if inputs[0].User? {
          assert o.machine.pending == m.pending + Step(cfg, m.state, inputs[0].event).scheduled;
        } else if inputs[0].index < |m.pending| {
          assert multiset(o.machine.pending)[CloseTimer] <= multiset(m.pending)[CloseTimer];
        }
      }
      RunMultiNeverQueuesClose(cfg, o.machine, inputs[1..]);
    }
  }

  /**
   In multi-select mode `onComplete` comes only from Escape or from a blur re-check that finds
   focus outside: a run with neither fires none, however many items are picked.
   */
  lemma {:induction false} RunMultiCompletesOnlyOnEscapeOrBlur<V>(cfg: Config, m: Machine<V>, inputs: seq<Input<V>>)
    requires cfg.multiSelect
    requires CloseTimer !in m.pending
    requires forall i :: 0 <= i < |inputs| ==> !IsEscape(inputs[i]) && !IsOutsideElapse(inputs[i])
    ensures Complete !in Run(cfg, m, inputs).notices
    decreases |inputs|
  {
    if inputs != [] {
      var input := inputs[0];
      var o := Apply(cfg, m, input);
      assert !IsEscape(input) && !IsOutsideElapse(input);
      assert Complete !in o.notices by {
        if input.Elapse? && input.index < |m.pending| {
          assert m.pending[input.index] in m.pending;
        }
      }
      RunMultiNeverQueuesClose(cfg, m, [input]);
      assert Run(cfg, m, [input]).machine == o.machine;
      RunMultiCompletesOnlyOnEscapeOrBlur(cfg, o.machine, inputs[1..]);
    }
  }

  /**
   In single-select mode a pick notifies `onChange` and `onSelect`, keeps the menu as it was,
   and queues the delayed close; when that fires the menu closes and `onComplete` follows.
   */
  lemma SinglePickThenClose<V>(cfg: Config, m: Machine<V>, v: V, focusInside: bool)
    requires !cfg.multiSelect
    ensures var after := Run(cfg, m, [User(ItemClick(v))]);
            && after.machine.state == State(m.state.isOpen, [v])
            && after.notices == [Change(v), Select(v)]
            && after.machine.pending == m.pending + [CloseTimer]
    ensures Run(cfg, m, [User(ItemClick(v)), Elapse(|m.pending|, focusInside)])
            == Outcome(Machine(State(false, [v]), m.pending), [Change(v), Select(v), Complete])
  {
    var inputs := [User(ItemClick(v)), Elapse(|m.pending|, focusInside)];
    var o := Apply(cfg, m, inputs[0]);
    assert o.machine.pending == m.pending + [CloseTimer];
    assert o.machine.pending[..|m.pending|] + o.machine.pending[|m.pending| + 1..] == m.pending;
    var o2 := Apply(cfg, o.machine, inputs[1]);
    assert o2 == Outcome(Machine(State(false, [v]), m.pending), [Complete]);
    assert inputs[1..][1..] == [];
    assert Run(cfg, o.machine, inputs[1..]) == Outcome(o2.machine, o2.notices + []);
  }

  /** The options A and B of the worked scenarios. */
  const Options: seq<Item<string>> := [Item("A", Text("A"), Absent), Item("B", Text("B"), Absent)]

  /**
   Single-select from an empty selection: picking A selects [A], the button reads "A", and the
   delayed close shuts the menu; reopening and picking B selects [B], not [A, B].
   */
  lemma SingleSelectScenario(focusInside: bool)
    ensures var cfg := MakeConfig(None, None);
            var m := Machine(Init(Some(true), Some([])), []);
            var first := Run(cfg, m, [User(ItemClick("A")), Elapse(0, focusInside)]);
            && first.machine == Machine(State(false, ["A"]), [])
            && SelectedItemLabel(first.machine.state.value, Options, cfg.selectedText) == Text("A")
            && Run(cfg, first.machine, [User(ButtonClick), User(ItemClick("B"))]).machine.state == State(true, ["B"])
  {
    var cfg := MakeConfig(None, None);
    var m := Machine(Init(Some(true), Some([])), []);
    SinglePickThenClose(cfg, m, "A", focusInside);
    ScanFindsLastMatch(Options, "A", Absent);
    assert LastIndex(Options, "A") == Some(0);
  }

  /** Multi-select from an empty selection: picking A, B, then A again leaves [B]. */
  lemma MultiSelectScenario()
    ensures var cfg := MakeConfig(Some(true), None);
            var m := Machine(Init(Some(true), None), []);
            && Run(cfg, m, Clicks(["A"])).machine.state.value == ["A"]
            && Run(cfg, m, Clicks(["A", "B"])).machine.state.value == ["A", "B"]
            && Run(cfg, m, Clicks(["A", "B", "A"])).machine.state.value == ["B"]
  {
  }
}
