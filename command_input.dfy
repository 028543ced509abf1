/** The combobox input: a text field whose list of options opens and closes
    with the keyboard, focus and blur, and whose chosen option follows Enter,
    clicks and clearing the text. */
module CommandInput {
  import opened Types

  /** The keys the key-down handler ignores. "Escape" is one of them. */
  const IgnoredKeys: seq<string> := [
    "Tab", "ArrowUp", "ArrowDown", "Control", "Alt", "Shift", "Escape",
    "Delete", "Home", "End", "PageUp", "PageDown", "Insert",
    "F1", "F2", "F3", "F4", "F5", "F6", "F7", "F8", "F9", "F10", "F11", "F12"
  ]

  /** Which keys the key-down handler ignores: Escape is one of them, while
      Enter, Backspace and every single-character key reach the handler. */
  lemma IgnoredKeysCover()
    ensures "Escape" in IgnoredKeys
    ensures "Enter" !in IgnoredKeys && "Backspace" !in IgnoredKeys
    ensures forall k :: |k| == 1 ==> k !in IgnoredKeys
  {
    assert forall i :: 0 <= i < |IgnoredKeys| ==> |IgnoredKeys[i]| >= 2;
  }

  /** `options.find((option) => option.label === text)`: the first option
      whose label is `text`, or undefined when there is none. */
  function FindByCaption(options: seq<Option>, text: string): (r: Maybe<Option>)
    ensures r.Absent? <==> forall i :: 0 <= i < |options| ==> options[i].caption != text
    ensures r.Present? ==> exists i :: 0 <= i < |options| && options[i] == r.value && options[i].caption == text
  {
    if options == [] then Absent
    else if options[0].caption == text then Present(options[0])
    else
      var r := FindByCaption(options[1..], text);
      assert forall i :: 1 <= i < |options| ==> options[i] == options[1..][i - 1];
      r
  }

  /** The match is the first one: no option before it has that label. */
  lemma {:induction false} FindByCaptionFirst(options: seq<Option>, text: string, i: nat)
    requires i < |options| && options[i].caption == text
    requires forall j :: 0 <= j < i ==> options[j].caption != text
    ensures FindByCaption(options, text) == Present(options[i])
  {
    if i > 0 {
      FindByCaptionFirst(options[1..], text, i - 1);
    }
  }

  /** `currentOption?.value === option.value`: an option is shown as selected
      iff its value is that of the current option; nothing is selected when
      there is no current option. */
  predicate IsSelected(current: Maybe<Option>, option: Option) {
    match current
    case Absent => false
    case Present(c) => c.value == option.value
  }

  /** At most one value is shown as selected: the current option's own, and
      none while there is no current option. */
  lemma SelectionIsSingle(current: Maybe<Option>)
    ensures current.Absent? ==> forall o :: !IsSelected(current, o)
    ensures current.Present? ==> IsSelected(current, current.value)
    ensures forall a, b :: IsSelected(current, a) && IsSelected(current, b) ==> a.value == b.value
  {
  }

  /** The label the input shows for an option, `currentOption?.label ?? ""`. */
  function CaptionOf(current: Maybe<Option>): string {
    match current
    case Absent => ""
    case Present(c) => c.caption
  }

  /** The component's three state cells. `currentOption` is the controllable
      value; writing it stands for a request through its setter. The text of
      the DOM input is `input`, since the field is controlled by it. */
  class Combobox {
    var open: bool
    var input: string
    var currentOption: Maybe<Option>

    constructor(value: Maybe<Option>)
      ensures !open && input == "" && currentOption == value
    {
      open := false;
      input := "";
      currentOption := value;
    }

    /** A key-down event. `mounted` is false while the input's ref is not
        attached, in which case the handler returns at once. */
    method KeyDown(key: string, options: seq<Option>, mounted: bool)
      modifies this
      ensures !mounted || key in IgnoredKeys ==>
        open == old(open) && input == old(input) && currentOption == old(currentOption)
      ensures mounted && key !in IgnoredKeys ==> open && input == old(input)
      ensures mounted && key == "Enter" && old(input) != "" ==>
        open && currentOption == FindByCaption(options, old(input))
      ensures key != "Enter" || old(input) == "" ==> currentOption == old(currentOption)
      ensures key == "Escape" ==>
        open == old(open) && input == old(input) && currentOption == old(currentOption)
    {
      if !mounted {
        return;
      }
      if key in IgnoredKeys {
        return;
      }
      // React batches the handler's state updates and applies them, in
      // order, once it returns.
      var nextOpen, nextInput, nextOption := open, input, currentOption;
      if !open {
        nextOpen := true;
      }
      if key == "Enter" && input != "" {
        nextOption := FindByCaption(options, input);
      }
      if key == "Escape" {
        nextInput := "";
        nextOpen := false;
      }
      open, input, currentOption := nextOpen, nextInput, nextOption;
    }

    /** The input loses focus. */
    method Blur()
      modifies this
      ensures !open && input == CaptionOf(old(currentOption))
      ensures currentOption == old(currentOption)
    {
      open := false;
      input := CaptionOf(currentOption);
    }

    /** An option of the list is chosen. */
    method Select(selected: Option)
      modifies this
      ensures !open && input == selected.caption && currentOption == Present(selected)
      ensures forall o :: IsSelected(currentOption, o) <==> o.value == selected.value
    {
      input := selected.caption;
      currentOption := Present(selected);
      open := false;
    }

    /** The text of the input changes to `text`. */
    method ValueChange(text: string)
      modifies this
      ensures input == text && open == old(open)
      ensures currentOption == if text == "" then Absent else old(currentOption)
    {
      input := text;
      if text == "" {
        currentOption := Absent;
      }
    }

    /** The input gains focus. */
    method Focus(immediate: bool)
      modifies this
      ensures open == (old(open) || immediate)
      ensures input == old(input) && currentOption == old(currentOption)
    {
      if immediate {
        open := true;
      }
    }
  }

  /** Escape neither clears the text nor closes the list, before or after an
      option is chosen. */
  method EscapeScenario()
  {
    var box := new Combobox(Absent);
    var paris := Option("Paris", "paris");
    box.ValueChange("Par");
    box.KeyDown("a", [paris], true);
    assert box.open && box.input == "Par";
    box.KeyDown("Escape", [paris], true);
    assert box.open && box.input == "Par";
    box.Select(paris);
    box.KeyDown("Escape", [paris], true);
    assert box.input == "Paris" && !box.open;
    box.Blur();
    assert box.input == "Paris" && box.currentOption == Present(paris);
  }
}
