/**
 The text the picklist's button shows for the current selection (`getSelectedItemLabel` in
 Picklist.js), and the option descriptors it is derived from.
 */
module Label {
  import opened Wrappers
  import Decimal

  /**
   What a React prop used as display text can hold: nothing, a string, a number, or some other
   element (any non-text node, which JavaScript treats as truthy).
   */
  datatype Content = Absent | Text(s: string) | Number(n: int) | Element

  /** JavaScript truthiness of a display value: missing, the empty string and 0 are falsy. */
  predicate Truthy(c: Content) {
    match c
    case Absent => false
    case Text(s) => s != []
    case Number(n) => n != 0
    case Element => true
  }

  /** One declared option: its value and the `label` and `children` props it was declared with. */
  datatype Item<V> = Item(value: V, labelProp: Content, children: Content)

  /** The text an option shows: `label || children`. */
  function ItemText<V>(item: Item<V>): (c: Content)
    ensures Truthy(c) <==> Truthy(item.labelProp) || Truthy(item.children)
    ensures !Truthy(item.labelProp) ==> c == item.children
    ensures Truthy(item.labelProp) ==> c == item.labelProp
  {
    if Truthy(item.labelProp) then item.labelProp else item.children
  }

  /**
   The `forEach` scan over the declared options: every option whose value equals v overwrites
   the accumulator with its text, whether that text is truthy or not.
   */
  function Scan<V(==)>(items: seq<Item<V>>, v: V, acc: Content): Content
    decreases |items|
  {
    if items == [] then acc
    else Scan(items[1..], v, if items[0].value == v then ItemText(items[0]) else acc)
  }

  /** The position of the last option whose value equals v, searched from the end. */
  function LastIndex<V(==)>(items: seq<Item<V>>, v: V): (r: Option<nat>)
    ensures r.None? <==> forall i :: 0 <= i < |items| ==> items[i].value != v
    ensures r.Some? ==> r.value < |items| && items[r.value].value == v
    ensures r.Some? ==> forall j :: r.value < j < |items| ==> items[j].value != v
    decreases |items|
  {
    if items == [] then None
    else if items[|items| - 1].value == v then Some(|items| - 1)
    else LastIndex(items[..|items| - 1], v)
  }

  /** The scan leaves the text of the last matching option, or the accumulator untouched when nothing matches. */
  lemma {:induction false} ScanFindsLastMatch<V>(items: seq<Item<V>>, v: V, acc: Content)
    ensures Scan(items, v, acc) == match LastIndex(items, v)
                                   case None => acc
                                   case Some(i) => ItemText(items[i])
    decreases |items|
  {
    if items != [] {
      var acc' := if items[0].value == v then ItemText(items[0]) else acc;
      var rest := items[1..];
      ScanFindsLastMatch(rest, v, acc');
      match LastIndex(rest, v)
      case None =>
        if items[0].value == v {
          assert LastIndex(items, v) == Some(0);
        } else {
          forall i | 0 <= i < |items|
            ensures items[i].value != v
          {
            if i > 0 { assert items[i] == rest[i - 1]; }
          }
        }
      case Some(j) =>
        assert items[j + 1] == rest[j];
        assert LastIndex(items, v) == Some(j + 1);
    }
  }

  /** The placeholder used when the caller gives no `selectedText`. */
  const DefaultSelectedText: Content := Text("Select an Option")

  /** The text shown for more than one selected value: "<count> Options selected". */
  function CountMessage(count: nat): Content {
    Text(Decimal.FromNat(count) + " Options selected")
  }

  /**
   The button label for a selection. More than one value gives the count message; exactly one
   gives the text of the last option declaring that value, unless there is none or it is falsy,
   when the placeholder shows; no value gives the placeholder.
   */
  function SelectedItemLabel<V(==)>(value: seq<V>, items: seq<Item<V>>, placeholder: Content): (r: Content)
    ensures |value| == 0 ==> r == placeholder
    ensures |value| > 1 ==>
              && r.Text?
              && |r.s| > |" Options selected"|
              && var digits := r.s[..|r.s| - |" Options selected"|];
                 && r.s[|digits|..] == " Options selected"
                 && Decimal.AllDigits(digits)
                 && digits[0] != '0'
                 && Decimal.ToNat(digits) == |value|
    ensures |value| == 1 ==>
              match LastIndex(items, value[0])
              case None => r == placeholder
              case Some(i) => r == if Truthy(ItemText(items[i])) then ItemText(items[i]) else placeholder
  {
    if |value| > 1 then
      var r := CountMessage(|value|);
      assert r.s[..|r.s| - |" Options selected"|] == Decimal.FromNat(|value|);
      r
    else if |value| == 1 then
      var selected := Scan(items, value[0], Absent);
      ScanFindsLastMatch(items, value[0], Absent);
      if Truthy(selected) then selected else placeholder
    else placeholder
  }

  /** The non-breaking space the button falls back to when the label is falsy. */
  const Nbsp: Content := Text("\U{00A0}")

  /** What the button's caption span holds: the label shown, or a non-breaking space when it is falsy. */
  function Caption(shown: Content): (c: Content)
    ensures Truthy(c)
    ensures Truthy(shown) ==> c == shown
    ensures !Truthy(shown) ==> c == Nbsp
  {
    if Truthy(shown) then shown else Nbsp
  }
}
