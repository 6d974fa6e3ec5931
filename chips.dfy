/**
 * The Chips widget: a controlled list of string tokens plus a text input.
 * The list arrives as the `value` prop and is never changed in place; every
 * edit is reported as a new list through `onChange` (and `onAdd`/`onRemove`).
 * The only state the widget itself changes is the text of its input element.
 */
module Chips {
  import opened Common
  import opened Text

  /** The `removable` prop: a boolean, or a callback asked about one removal. */
  datatype Removable = Fixed(allowed: bool) | Decided(decide: (seq<string>, nat) -> bool)

  /**
   * The props the list logic reads. A missing `max` (null, 0) is 0; a missing
   * `separator` (null, "") is "".
   */
  datatype Props = Props(
    max: int,
    disabled: bool,
    readOnly: bool,
    removable: Removable,
    allowDuplicate: bool,
    separator: string)

  /**
   * What one event handler reports: the payloads of `onAdd`, `onRemove` and
   * `onChange` (None when the handler does not reach that call; whether the
   * prop is set is not modelled) and whether the browser's default action is
   * prevented.
   */
  datatype Emitted = Emitted(
    added: Option<string>,
    removed: Option<seq<string>>,
    changed: Option<seq<string>>,
    preventDefault: bool)

  const Silent := Emitted(None, None, None, false)

  /** Key codes the handler distinguishes. */
  const Backspace := 8
  const Enter := 13
  const Comma := 188

  /**
   * `ObjectUtils.getPropValue(removable, {value, index})`: a boolean prop is the
   * answer for every removal, a callback is asked about this one.
   */
  function IsRemovable(removable: Removable, removed: seq<string>, index: nat): (r: bool)
    ensures removable.Fixed? ==> (r <==> removable.allowed)
    ensures removable.Decided? ==> (r <==> removable.decide(removed, index))
  {
    match removable
    case Fixed(allowed) => allowed
    case Decided(decide) => decide(removed, index)
  }

  /** `isMaxedOut`: a maximum is set and the list has reached it exactly. */
  predicate IsMaxedOut(p: Props, value: seq<string>)
    ensures IsMaxedOut(p, value) ==> p.max > 0 && |value| == p.max
    ensures IsMaxedOut(p, value) <== p.max != 0 && |value| == p.max
  {
    p.max != 0 && p.max == |value|
  }

  /** `isFilled`: there is at least one token or some typed text. */
  predicate IsFilled(value: seq<string>, input: string)
    ensures IsFilled(value, input) <==> value != [] || input != ""
  {
    |value| > 0 || |input| > 0
  }

  /**
   * The list `addItem` emits for a non-blank item: the item at the end when
   * duplicates are allowed or it is not yet present, otherwise the list unchanged.
   */
  function Appended(value: seq<string>, item: string, allowDuplicate: bool): (r: seq<string>)
    ensures |r| >= |value| && r[..|value|] == value
    ensures r == value + [item] <==> allowDuplicate || item !in value
    ensures r == value <==> !allowDuplicate && item in value
  {
    if allowDuplicate || item !in value then value + [item] else value
  }

  /**
   * `removeItem`: nothing when the widget is both disabled and read-only or the
   * removal is refused; otherwise `onRemove` gets the spliced-out element and
   * `onChange` the list without position `index`.
   */
  function RemoveItem(p: Props, value: seq<string>, index: nat): (e: Emitted)
    ensures p.disabled && p.readOnly ==> e == Silent
    ensures !IsRemovable(p.removable, SplicedOut(value, index), index) ==> e == Silent
    ensures !(p.disabled && p.readOnly) && IsRemovable(p.removable, SplicedOut(value, index), index) ==>
      && e.added.None? && !e.preventDefault
      && e.removed == Some(SplicedOut(value, index))
      && e.changed == Some(RemoveAt(value, index))
  {
    if p.disabled && p.readOnly then Silent
    else
      var removed := SplicedOut(value, index);
      if !IsRemovable(p.removable, removed, index) then Silent
      else Emitted(None, Some(removed), Some(RemoveAt(value, index)), false)
  }

  /** The pasted pieces `onPaste` keeps: non-blank and, unless duplicates are allowed, not already listed. */
  function KeptPieces(value: seq<string>, pieces: seq<string>, allowDuplicate: bool): (r: seq<string>)
    ensures forall k :: 0 <= k < |r| ==> !IsBlank(r[k]) && (allowDuplicate || r[k] !in value)
  {
    Filter(pieces, piece => (allowDuplicate || piece !in value) && !IsBlank(piece))
  }

  /** A piece is kept exactly when it was pasted, is not blank and is new or duplicates are allowed. */
  lemma KeptPiecesMember(value: seq<string>, pieces: seq<string>, allowDuplicate: bool, x: string)
    ensures x in KeptPieces(value, pieces, allowDuplicate) <==>
      x in pieces && !IsBlank(x) && (allowDuplicate || x !in value)
  {
    FilterMember(pieces, piece => (allowDuplicate || piece !in value) && !IsBlank(piece), x);
  }

  /**
   * Each piece is judged on its own against the list from before the paste, so
   * the kept pieces of a longer paste are those of its parts, in order, and
   * repeated pieces within one paste are not deduplicated against each other.
   */
  lemma KeptPiecesConcat(value: seq<string>, a: seq<string>, b: seq<string>, allowDuplicate: bool)
    ensures KeptPieces(value, a + b, allowDuplicate) ==
      KeptPieces(value, a, allowDuplicate) + KeptPieces(value, b, allowDuplicate)
  {
    FilterConcat(a, b, piece => (allowDuplicate || piece !in value) && !IsBlank(piece));
  }

  /** The list `onPaste` emits: the old list followed by the kept pieces of the split text. */
  function PastedList(value: seq<string>, pasted: string, separator: string, allowDuplicate: bool): (r: seq<string>)
    requires |separator| > 0
    ensures |r| >= |value| && r[..|value|] == value
    ensures forall x :: x in r[|value|..] <==>
      x in Split(pasted, separator) && !IsBlank(x) && (allowDuplicate || x !in value)
  {
    var kept := KeptPieces(value, Split(pasted, separator), allowDuplicate);
    assert (value + kept)[|value|..] == kept;
    forall x ensures x in kept <==> x in Split(pasted, separator) && !IsBlank(x) && (allowDuplicate || x !in value) {
      KeptPiecesMember(value, Split(pasted, separator), allowDuplicate, x);
    }
    value + kept
  }

  /** What a key press leads to, decided by `onKeyDown` before any callback runs. */
  datatype KeyAction = RemoveLast | AddInput | BlockTyping | NoAction

  /**
   * `onKeyDown`'s dispatch. Backspace on an empty input removes the last token;
   * Enter adds non-blank text while the maximum is not reached; any other key is
   * blocked once the list is maxed out; the comma key adds when the separator is ",".
   */
  function KeyDownAction(p: Props, value: seq<string>, input: string, which: int): (a: KeyAction)
    ensures a == RemoveLast <==> which == Backspace && input == "" && |value| > 0
    ensures a == AddInput <==>
      (which == Enter && !IsBlank(input) && (p.max == 0 || |value| < p.max)) ||
      (which == Comma && p.separator == "," && !IsMaxedOut(p, value))
    ensures a == BlockTyping <==> which != Backspace && which != Enter && IsMaxedOut(p, value)
  {
    if which == Backspace then
      if |input| == 0 && |value| > 0 then RemoveLast else NoAction
    else if which == Enter then
      if !IsBlank(input) && (p.max == 0 || p.max > |value|) then AddInput else NoAction
    else if IsMaxedOut(p, value) then BlockTyping
    else if p.separator != "" && p.separator == "," && which == Comma then AddInput
    else NoAction
  }

  /** A key press never takes a list that is within a positive maximum past it. */
  lemma KeyDownWithinMax(p: Props, value: seq<string>, input: string, which: int)
    requires p.max > 0 && |value| <= p.max
    ensures KeyDownAction(p, value, input, which) == AddInput ==>
      |Appended(value, input, p.allowDuplicate)| <= p.max
  {
  }

  /**
   * Backspace on an empty input with a non-empty list emits the list without
   * its last token, unless the removal is blocked.
   */
  lemma BackspaceDropsLast(p: Props, value: seq<string>)
    requires |value| > 0
    requires !(p.disabled && p.readOnly)
    requires IsRemovable(p.removable, [value[|value| - 1]], |value| - 1)
    ensures KeyDownAction(p, value, "", Backspace) == RemoveLast
    ensures RemoveItem(p, value, |value| - 1).changed == Some(value[..|value| - 1])
  {
    var last := |value| - 1;
    assert SplicedOut(value, last) == [value[last]];
    assert RemoveAt(value, last) == value[..last];
  }

  /**
   * The guard of `removeItem` needs both flags: a read-only (but enabled)
   * widget still removes the last token on Backspace.
   */
  lemma ReadOnlyAloneAllowsBackspaceRemoval(p: Props, value: seq<string>)
    requires p.readOnly && !p.disabled && p.removable == Fixed(true)
    requires |value| > 0
    ensures RemoveItem(p, value, |value| - 1).changed == Some(value[..|value| - 1])
  {
    var last := |value| - 1;
    assert SplicedOut(value, last) == [value[last]];
    assert RemoveAt(value, last) == value[..last];
  }

  /** The widget's own mutable state: the text of its input element, beside the props it renders. */
  class ChipsInput {
    var props: Props
    var value: seq<string>
    var input: string

    constructor (props: Props, value: seq<string>)
      ensures this.props == props && this.value == value && input == ""
    {
      this.props := props;
      this.value := value;
      input := "";
    }

    /** `updateInput`: report `items` through `onChange` and clear the input. */
    method UpdateInput(items: seq<string>, preventDefault: bool) returns (e: Emitted)
      modifies this`input
      ensures input == ""
      ensures e == Emitted(None, None, Some(items), preventDefault)
    {
      e := Emitted(None, None, Some(items), preventDefault);
      input := "";
    }

    /**
     * `addItem`: a blank item changes nothing. Otherwise `onChange` always fires
     * and the input is cleared; `onAdd` fires only when the item was appended.
     */
    method AddItem(item: string, preventDefault: bool) returns (e: Emitted)
      modifies this`input
      ensures IsBlank(item) ==> e == Silent && input == old(input)
      ensures !IsBlank(item) ==> input == ""
      ensures !IsBlank(item) ==> e.changed == Some(Appended(value, item, props.allowDuplicate))
      ensures !IsBlank(item) ==> e.preventDefault == preventDefault && e.removed.None?
      ensures !IsBlank(item) ==> (e.added == Some(item) <==> props.allowDuplicate || item !in value)
      ensures e.added.Some? ==> e.added == Some(item)
    {
      e := Silent;
      if !IsBlank(item) {
        var values := value;
        var added: Option<string> := None;
        if props.allowDuplicate || item !in values {
          values := values + [item];
          added := Some(item);
        }
        e := UpdateInput(values, preventDefault);
        e := e.(added := added);
      }
    }

    /** `onKeyDown`: carry out the action `KeyDownAction` picks for the key code `which`. */
    method OnKeyDown(which: int) returns (e: Emitted)
      modifies this`input
      ensures KeyDownAction(props, value, old(input), which) == RemoveLast ==>
        e == RemoveItem(props, value, |value| - 1) && input == old(input)
      ensures KeyDownAction(props, value, old(input), which) == AddInput && !IsBlank(old(input)) ==>
        input == "" && e.preventDefault && e.changed == Some(Appended(value, old(input), props.allowDuplicate)) &&
        e.removed.None? && (e.added == Some(old(input)) <==> props.allowDuplicate || old(input) !in value)
    ensures e.added.Some? ==> e.added == Some(old(input))
      ensures KeyDownAction(props, value, old(input), which) == AddInput && IsBlank(old(input)) ==>
        e == Silent && input == old(input)
      ensures KeyDownAction(props, value, old(input), which) == BlockTyping ==>
        e == Silent.(preventDefault := true) && input == old(input)
      ensures KeyDownAction(props, value, old(input), which) == NoAction ==>
        e == Silent && input == old(input)
    {
      var action := KeyDownAction(props, value, input, which);
      match action
      case RemoveLast =>
        e := RemoveItem(props, value, |value| - 1);
      case AddInput =>
        e := AddItem(input, true);
      case BlockTyping =>
        e := Silent.(preventDefault := true);
      case NoAction =>
        e := Silent;
    }

    /**
     * `onPaste`: with a separator and non-empty clipboard text, emit the old list
     * followed by the kept pieces and clear the input; otherwise do nothing.
     */
    method OnPaste(pasted: string) returns (e: Emitted)
      modifies this`input
      ensures props.separator == "" || pasted == "" ==> e == Silent && input == old(input)
      ensures props.separator != "" && pasted != "" ==>
        input == "" && e == Emitted(None, None, Some(PastedList(value, pasted, props.separator, props.allowDuplicate)), true)
    {
      e := Silent;
      if props.separator != "" && pasted != "" {
        var pieces := Split(pasted, props.separator);
        var kept := KeptPieces(value, pieces, props.allowDuplicate);
        e := UpdateInput(value + kept, true);
      }
    }
  }
}
