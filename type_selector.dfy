/** `handleTypeToggle` of the question-type selector: a click on a type
    removes it from the selection when it is there and appends it when it is
    not; a disabled selector ignores clicks. */
module TypeSelector {
  import opened Common

  function NotEqual(typeId: string): string -> bool
  {
    t => t != typeId
  }

  /** `selected.filter(t => t !== typeId)`: every occurrence of `typeId`
      gone, everything else kept. */
  function Without(selected: seq<string>, typeId: string): (r: seq<string>)
    ensures typeId !in r && |r| <= |selected|
    ensures forall t :: t != typeId ==> (t in r <==> t in selected)
  {
    var r := Filter(selected, NotEqual(typeId));
    FilterComplete(selected, NotEqual(typeId));
    assert forall k :: 0 <= k < |r| ==> r[k] != typeId;
    r
  }

  /** Removal keeps the order of what it keeps: it goes element by element
      and concatenates. */
  lemma {:induction false} WithoutOrder(a: seq<string>, b: seq<string>, typeId: string)
    ensures Without(a + b, typeId) == Without(a, typeId) + Without(b, typeId)
    ensures Without([], typeId) == []
    ensures forall t :: Without([t], typeId) == (if t == typeId then [] else [t])
  {
    FilterAppend(a, b, NotEqual(typeId));
  }

  /** The new selection a click reports, or `None` when the selector is
      disabled and reports nothing. */
  function HandleTypeToggle(selected: seq<string>, typeId: string, disabled: bool): (r: Option<seq<string>>)
    ensures r.None? <==> disabled
    ensures r.Some? && typeId in selected ==> r.value == Without(selected, typeId)
    ensures r.Some? && typeId !in selected ==> r.value == selected + [typeId]
  {
    if disabled then None
    else if typeId in selected then Some(Without(selected, typeId))
    else Some(selected + [typeId])
  }

  /** A click flips the membership of the clicked type and leaves every
      other type's membership as it was. */
  lemma ToggleFlips(selected: seq<string>, typeId: string)
    ensures var r := HandleTypeToggle(selected, typeId, false).value;
      && (typeId in r <==> typeId !in selected)
      && forall t :: t != typeId ==> (t in r <==> t in selected)
  {
  }

  /** Two clicks on a type that was not selected give the selection back;
      on a selected type they move it, once, to the end. */
  lemma ToggleTwice(selected: seq<string>, typeId: string)
    ensures var twice := HandleTypeToggle(HandleTypeToggle(selected, typeId, false).value, typeId, false);
      && (typeId !in selected ==> twice == Some(selected))
      && (typeId in selected ==> twice == Some(Without(selected, typeId) + [typeId]))
  {
    var once := HandleTypeToggle(selected, typeId, false).value;
    if typeId !in selected {
      assert once == selected + [typeId];
      assert typeId in once;
      WithoutOrder(selected, [typeId], typeId);
      WithoutAbsent(selected, typeId);
      assert Without(once, typeId) == selected;
    } else {
      assert once == Without(selected, typeId);
      assert typeId !in once;
    }
  }

  /** Removing a type that is not there changes nothing. */
  lemma {:induction false} WithoutAbsent(selected: seq<string>, typeId: string)
    requires typeId !in selected
    ensures Without(selected, typeId) == selected
  {
    if selected != [] {
      WithoutAbsent(selected[1..], typeId);
      assert selected == [selected[0]] + selected[1..];
      WithoutOrder([selected[0]], selected[1..], typeId);
    }
  }
}
