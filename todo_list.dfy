/** The state held by the `TodoList` screen: the observable list of items and
    the text of the "Add a task" field, with one method per button handler. */
module TodoScreen {
  import opened Text
  import opened Todo

  class TodoList {
    /** The `todoList` state list, in display order. */
    var items: seq<TodoItem>
    /** The text of the `newText` input field. */
    var pendingInput: string

    /** The screen starts with no items and an empty input field. */
    constructor ()
      ensures items == [] && pendingInput == ""
    {
      items := [];
      pendingInput := "";
    }

    /** The input field's `onValueChange`: the field now holds `text`. */
    method SetInput(text: string)
      modifies this`pendingInput
      ensures pendingInput == text
    {
      pendingInput := text;
    }

    /** A forward scan for the first item with `id`; -1 when there is none. */
    method IndexOf(id: Long) returns (idx: int)
      ensures idx == IndexOfFirst(items, id)
      ensures idx == -1 <==> id !in Ids(items)
    {
      var i := 0;
      while i < |items|
        invariant 0 <= i <= |items|
        invariant forall k :: 0 <= k < i ==> items[k].id != id
      {
        if items[i].id == id {
          assert Ids(items)[i] == id;
          return i;
        }
        i := i + 1;
      }
      assert forall k :: 0 <= k < |items| ==> Ids(items)[k] != id;
      return -1;
    }

    /** The Add button. The input is trimmed; if nothing is left, nothing
        happens. Otherwise a new item with the trimmed text, the given id and
        edit mode off goes at the end, and the input field is cleared. The
        id stands for the clock reading the source uses. */
    method Add(id: Long)
      modifies this
      ensures var t := Trim(old(pendingInput));
              if t == [] then items == old(items) && pendingInput == old(pendingInput)
              else items == old(items) + [NewItem(id, t)] && pendingInput == ""
    {
      var t := Trim(pendingInput);
      if t != [] {
        items := items + [NewItem(id, t)];
        pendingInput := "";
      }
    }

    /** A row's Edit button: the first item with `id` enters edit mode. */
    method Edit(id: Long)
      modifies this`items
      ensures items == Edited(old(items), id)
    {
      var idx := IndexOf(id);
      if idx != -1 {
        items := items[idx := items[idx].(isEditing := true)];
      }
    }

    /** A row's Save button with the row's edited text `newVal`: the first
        item with `id` takes `newVal` unchecked and leaves edit mode. */
    method Save(id: Long, newVal: string)
      modifies this`items
      ensures items == Saved(old(items), id, newVal)
    {
      var idx := IndexOf(id);
      if idx != -1 {
        items := items[idx := items[idx].(text := newVal, isEditing := false)];
      }
    }

    /** A row's Delete button: every item with `id` goes, the rest keep
        their order. */
    method Delete(id: Long)
      modifies this`items
      ensures items == Without(old(items), id)
    {
      var kept: seq<TodoItem> := [];
      var i := 0;
      while i < |items|
        invariant 0 <= i <= |items|
        invariant kept == Without(items[..i], id)
      {
        assert items[..i + 1][..i] == items[..i];
        if items[i].id != id {
          kept := kept + [items[i]];
        }
        i := i + 1;
      }
      assert items[..|items|] == items;
      items := kept;
    }
  }

  /** Add with a fresh id keeps the row keys of the screen distinct. */
  method AddKeepingKeys(list: TodoList, id: Long)
    requires DistinctIds(list.items) && id !in Ids(list.items)
    modifies list
    ensures DistinctIds(list.items)
  {
    ghost var before := list.items;
    ghost var t := Trim(list.pendingInput);
    list.Add(id);
    if t != [] {
      AppendFreshKeepsDistinct(before, NewItem(id, t));
    }
  }

  /** Edit keeps the row keys of the screen distinct. */
  method EditKeepingKeys(list: TodoList, id: Long)
    requires DistinctIds(list.items)
    modifies list
    ensures DistinctIds(list.items)
  {
    EditSaveKeepDistinct(list.items, id, "");
    list.Edit(id);
  }

  /** Save keeps the row keys of the screen distinct. */
  method SaveKeepingKeys(list: TodoList, id: Long, newVal: string)
    requires DistinctIds(list.items)
    modifies list
    ensures DistinctIds(list.items)
  {
    EditSaveKeepDistinct(list.items, id, newVal);
    list.Save(id, newVal);
  }

  /** Delete keeps the row keys of the screen distinct. */
  method DeleteKeepingKeys(list: TodoList, id: Long)
    requires DistinctIds(list.items)
    modifies list
    ensures DistinctIds(list.items)
  {
    WithoutKeepsDistinct(list.items, id);
    list.Delete(id);
  }

  /** A single non-blank character is its own trim. */
  lemma TrimLetter(c: char)
    requires !IsWhitespace(c)
    ensures Trim([c]) == [c]
  {
    TrimUnique([], [c], []);
    assert [] + [c] + [] == [c];
  }

  /** The blank input the walkthrough types trims to nothing. */
  lemma TrimBlank()
    ensures Trim("   ") == []
  {
    assert AllWhitespace("   ");
  }

  /** The padded input the walkthrough types, trimmed. */
  lemma TrimPadded()
    ensures Trim(" buy milk ") == "buy milk"
  {
    TrimUnique(" ", "buy milk", " ");
    assert " " + "buy milk" + " " == " buy milk ";
  }

  /** A client of the screen: blank input is ignored and leaves the field
      as typed; padded input is added trimmed and clears the field. */
  method AddWalkthrough(a: Long)
  {
    TrimBlank();
    TrimPadded();
    var list := new TodoList();
    list.SetInput("   ");
    list.Add(a);
    assert list.items == [] && list.pendingInput == "   ";
    list.SetInput(" buy milk ");
    list.Add(a);
    assert list.items == [TodoItem(a, "buy milk", false)] && list.pendingInput == "";
  }

  /** A client of the screen: an added item can be edited, saved (with empty
      text too) and deleted. */
  method EditWalkthrough(a: Long)
  {
    TrimLetter('a');
    var list := new TodoList();
    list.SetInput("a");
    list.Add(a);
    assert list.items == [TodoItem(a, "a", false)];
    list.Edit(a);
    assert list.items == [TodoItem(a, "a", true)];
    list.Save(a, "");
    assert list.items == [TodoItem(a, "", false)];
    list.Save(a, "buy oat milk");
    assert list.items == [TodoItem(a, "buy oat milk", false)];
    list.Delete(a);
    assert list.items == [];
  }

  /** A client of the screen: a row keeps its key when a row before it is
      deleted. */
  method KeySurvivesDelete(a: Long, b: Long)
    requires a != b
  {
    TrimLetter('a');
    TrimLetter('b');
    var list := new TodoList();
    list.SetInput("a");
    list.Add(a);
    list.SetInput("b");
    list.Add(b);
    var both := [TodoItem(a, "a", false), TodoItem(b, "b", false)];
    assert list.items == both;
    assert both[..1] == [both[0]];
    list.Delete(a);
    assert list.items == [TodoItem(b, "b", false)];
  }
}
