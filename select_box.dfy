/** The listbox state machine of src/app/components/Select.tsx: whether the
    list is open, which option has the keyboard focus, and the `onChange`
    calls it makes. Options, value and placeholder are the component's props
    and stay fixed for an instance. DOM focus and the outside-click listener
    are not modelled. */
module SelectBox {
  import opened Common

  /** An option; `caption` is the source's `label`, a reserved word here. */
  datatype SelectOption = SelectOption(id: string, caption: string)

  /** The keys the listbox reacts to; every other key is `Other`. */
  datatype Key = ArrowDown | ArrowUp | Enter | Space | Escape | Home | End | Other

  const DefaultPlaceholder: string := "Select..."

  /** `handleArrowDown`'s update: one down, from the last option (or from
      anywhere past it) back to the first. */
  function NextIndex(prev: int, len: nat): (next: int)
    ensures len > 0 && -1 <= prev < len ==> 0 <= next < len
    ensures len == 0 && -1 <= prev ==> next == 0
    ensures 0 <= prev < len - 1 ==> next == prev + 1
    ensures prev == len - 1 ==> next == 0
  {
    if prev < len - 1 then prev + 1 else 0
  }

  /** `handleArrowUp`'s update: one up, from the first option (or from no
      focus) round to the last. */
  function PrevIndex(prev: int, len: nat): (next: int)
    ensures len > 0 && -1 <= prev < len ==> 0 <= next < len
    ensures len == 0 && prev <= 0 ==> next == -1
    ensures 0 < prev ==> next == prev - 1
    ensures prev <= 0 ==> next == len - 1
  {
    if prev > 0 then prev - 1 else len - 1
  }

  /** Up undoes down and down undoes up on every focused option. */
  lemma UpDownInverse(i: int, len: nat)
    requires 0 <= i < len
    ensures PrevIndex(NextIndex(i, len), len) == i
    ensures NextIndex(PrevIndex(i, len), len) == i
  {
  }

  /** `k` presses of ArrowDown. */
  function Downs(i: int, len: nat, k: nat): int {
    if k == 0 then i else NextIndex(Downs(i, len, k - 1), len)
  }

  /** Pressing ArrowDown `k` times, at most once round, from a focused option
      moves `k` places, wrapping past the last option. */
  lemma {:induction false} DownsWrap(i: int, len: nat, k: nat)
    requires 0 <= i < len && k <= len
    ensures Downs(i, len, k) == if i + k < len then i + k else i + k - len
  {
    if k > 0 {
      DownsWrap(i, len, k - 1);
    }
  }

  /** Going once round with ArrowDown returns to the option it started on. */
  lemma DownsCycle(i: int, len: nat)
    requires 0 <= i < len
    ensures Downs(i, len, len) == i
  {
    DownsWrap(i, len, len);
  }

  /** `options.find(opt => opt.id === value)` */
  function FindOption(options: seq<SelectOption>, value: string): (r: Option<SelectOption>)
    ensures r.None? <==> forall i :: 0 <= i < |options| ==> options[i].id != value
    ensures forall i :: (0 <= i < |options| && options[i].id == value
                         && forall j :: 0 <= j < i ==> options[j].id != value) ==> r == Some(options[i])
  {
    if options == [] then None
    else if options[0].id == value then Some(options[0])
    else
      assert forall i :: 0 < i < |options| ==> options[i] == options[1..][i - 1];
      FindOption(options[1..], value)
  }

  /** The button's text: the selected option's label, or the placeholder
      when no option has the current value. */
  function ButtonLabel(options: seq<SelectOption>, value: string, placeholder: string): (r: string)
    ensures (forall i :: 0 <= i < |options| ==> options[i].id != value) ==> r == placeholder
    ensures forall i :: (0 <= i < |options| && options[i].id == value
                         && forall j :: 0 <= j < i ==> options[j].id != value) ==> r == options[i].caption
  {
    match FindOption(options, value)
    case None => placeholder
    case Some(opt) => opt.caption
  }

  class Listbox {
    const options: seq<SelectOption>
    const value: string
    var isOpen: bool
    var focusedIndex: int
    /** The values handed to `onChange`, oldest first. */
    var changes: seq<string>

    /** The focus never leaves `-1 .. len - 1`, except that Home or ArrowDown
        on an empty list focus index 0. */
    ghost predicate Valid()
      reads this
    {
      -1 <= focusedIndex && (focusedIndex < |options| || focusedIndex == 0)
    }

    constructor(options: seq<SelectOption>, value: string)
      ensures Valid()
      ensures this.options == options && this.value == value
      ensures !isOpen && focusedIndex == -1 && changes == []
    {
      this.options := options;
      this.value := value;
      isOpen := false;
      focusedIndex := -1;
      changes := [];
    }

    /** `handleSelect`: report the choice, close, drop the focus. */
    method Choose(optionId: string)
      modifies this
      ensures changes == old(changes) + [optionId] && !isOpen && focusedIndex == -1
    {
      changes := changes + [optionId];
      isOpen := false;
      focusedIndex := -1;
    }

    /** The button: opening focuses the first option, since the selected
        index is computed as -1 while the list is closed; closing leaves
        the focus index where it was. */
    method ButtonClick()
      requires Valid()
      modifies this
      ensures Valid()
      ensures isOpen == !old(isOpen)
      ensures !old(isOpen) ==> focusedIndex == 0
      ensures old(isOpen) ==> focusedIndex == old(focusedIndex)
      ensures changes == old(changes)
    {
      if !isOpen {
        focusedIndex := 0;
      }
      isOpen := !isOpen;
    }

    /** A click on the option at `index` while the list is open. */
    method OptionClick(index: nat)
      requires isOpen && index < |options|
      modifies this
      ensures Valid()
      ensures changes == old(changes) + [options[index].id] && !isOpen && focusedIndex == -1
    {
      Choose(options[index].id);
    }

    /** The mouse entering the option at `index` focuses it. */
    method MouseEnter(index: nat)
      requires isOpen && index < |options|
      modifies this
      ensures Valid()
      ensures focusedIndex == index && isOpen && changes == old(changes)
    {
      focusedIndex := index;
    }

    /** The document's key handler, installed only while the list is open. */
    method KeyDown(key: Key)
      requires Valid()
      modifies this
      ensures Valid()
      ensures !old(isOpen) ==> isOpen == old(isOpen) && focusedIndex == old(focusedIndex) && changes == old(changes)
      ensures old(isOpen) && key == ArrowDown ==>
        focusedIndex == NextIndex(old(focusedIndex), |options|) && isOpen && changes == old(changes)
      ensures old(isOpen) && key == ArrowUp ==>
        focusedIndex == PrevIndex(old(focusedIndex), |options|) && isOpen && changes == old(changes)
      ensures old(isOpen) && key == Home ==> focusedIndex == 0 && isOpen && changes == old(changes)
      ensures old(isOpen) && key == End ==> focusedIndex == |options| - 1 && isOpen && changes == old(changes)
      ensures old(isOpen) && key == Escape ==> !isOpen && focusedIndex == -1 && changes == old(changes)
      ensures old(isOpen) && (key == Enter || key == Space) ==>
        if 0 <= old(focusedIndex) < |options| && options[old(focusedIndex)].id != "" then
          changes == old(changes) + [options[old(focusedIndex)].id] && !isOpen && focusedIndex == -1
        else
          changes == old(changes) && isOpen && focusedIndex == old(focusedIndex)
      ensures old(isOpen) && key == Other ==> isOpen && focusedIndex == old(focusedIndex) && changes == old(changes)
    {
      if !isOpen {
        return;
      }
      match key {
        case ArrowDown =>
          focusedIndex := NextIndex(focusedIndex, |options|);
        case ArrowUp =>
          focusedIndex := PrevIndex(focusedIndex, |options|);
        case Enter =>
          PressEnter();
        case Space =>
          PressEnter();
        case Escape =>
          isOpen := false;
          focusedIndex := -1;
        case Home =>
          focusedIndex := 0;
        case End =>
          focusedIndex := |options| - 1;
        case Other =>
      }
    }

    /** `handleEnter`: chooses the focused option only when the index is in
        range and the option's id is not empty. */
    method PressEnter()
      requires Valid()
      modifies this
      ensures Valid()
      ensures if 0 <= old(focusedIndex) < |options| && options[old(focusedIndex)].id != "" then
          changes == old(changes) + [options[old(focusedIndex)].id] && !isOpen && focusedIndex == -1
        else
          changes == old(changes) && isOpen == old(isOpen) && focusedIndex == old(focusedIndex)
    {
      if focusedIndex >= 0 && focusedIndex < |options| {
        var optionId := options[focusedIndex].id;
        if optionId != "" {
          Choose(optionId);
        }
      }
    }
  }
}
