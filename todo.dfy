/** The value level of the to-do list: the item record and, as pure
    functions, what each handler of the list does to the sequence of items. */
module Todo {

  /** Kotlin's `Long`. */
  newtype Long = x: int | -0x8000_0000_0000_0000 <= x < 0x8000_0000_0000_0000

  /** One row of the list. `id` is the row's key; `isEditing` says whether the
      row shows its text field and Save button instead of its text. */
  datatype TodoItem = TodoItem(id: Long, text: string, isEditing: bool)

  /** The call `TodoItem(text = t)`: the defaults fill in the rest. The id
      default is a clock reading, so here it is a parameter; `isEditing`
      defaults to false. */
  function NewItem(id: Long, text: string): (item: TodoItem)
    ensures item.id == id && item.text == text && !item.isEditing
  {
    TodoItem(id, text, false)
  }

  /** The ids of `s`, in order. */
  function Ids(s: seq<TodoItem>): seq<Long>
  {
    seq(|s|, k requires 0 <= k < |s| => s[k].id)
  }

  /** No two rows share a key. */
  predicate DistinctIds(s: seq<TodoItem>)
  {
    forall i, j :: 0 <= i < j < |s| ==> s[i].id != s[j].id
  }

  /** `indexOfFirst { it.id == id }`: the position of the first item with
      `id`, or -1 when there is none. */
  function IndexOfFirst(s: seq<TodoItem>, id: Long): (r: int)
    ensures -1 <= r < |s|
    ensures r == -1 <==> id !in Ids(s)
    ensures r >= 0 ==> s[r].id == id && forall k :: 0 <= k < r ==> s[k].id != id
  {
    if s == [] then -1
    else
      assert Ids(s) == [s[0].id] + Ids(s[1..]);
      if s[0].id == id then 0
      else
        var r := IndexOfFirst(s[1..], id);
        if r == -1 then -1 else r + 1
  }

  /** The list after Edit on `id`: the first item with `id` is in edit mode,
      with the same id and text; nothing else changes. */
  function Edited(s: seq<TodoItem>, id: Long): (r: seq<TodoItem>)
    ensures |r| == |s| && Ids(r) == Ids(s)
    ensures id !in Ids(s) ==> r == s
    ensures forall k :: 0 <= k < |s| && k != IndexOfFirst(s, id) ==> r[k] == s[k]
    ensures var i := IndexOfFirst(s, id);
            i >= 0 ==> r[i].id == s[i].id && r[i].text == s[i].text && r[i].isEditing
  {
    var i := IndexOfFirst(s, id);
    if i == -1 then s else s[i := s[i].(isEditing := true)]
  }

  /** The list after Save of `text` on `id`: the first item with `id` holds
      `text` as it is (empty or not) and leaves edit mode; nothing else
      changes. */
  function Saved(s: seq<TodoItem>, id: Long, text: string): (r: seq<TodoItem>)
    ensures |r| == |s| && Ids(r) == Ids(s)
    ensures id !in Ids(s) ==> r == s
    ensures forall k :: 0 <= k < |s| && k != IndexOfFirst(s, id) ==> r[k] == s[k]
    ensures var i := IndexOfFirst(s, id);
            i >= 0 ==> r[i].id == s[i].id && r[i].text == text && !r[i].isEditing
  {
    var i := IndexOfFirst(s, id);
    if i == -1 then s else s[i := s[i].(text := text, isEditing := false)]
  }

  /** The number of items with `id`. */
  function Count(s: seq<TodoItem>, id: Long): (n: nat)
    ensures n <= |s|
    ensures n == 0 <==> id !in Ids(s)
  {
    if s == [] then 0
    else
      var init := s[..|s| - 1];
      assert Ids(s) == Ids(init) + [s[|s| - 1].id];
      Count(init, id) + if s[|s| - 1].id == id then 1 else 0
  }

  /** `removeAll { it.id == id }`: the items without `id`. None of them has
      `id`, and exactly the matching items are gone. */
  function Without(s: seq<TodoItem>, id: Long): (r: seq<TodoItem>)
    ensures |r| == |s| - Count(s, id)
    ensures id !in Ids(r)
  {
    if s == [] then []
    else
      var init, last := s[..|s| - 1], s[|s| - 1];
      var w := Without(init, id);
      var r := w + if last.id == id then [] else [last];
      assert forall k :: 0 <= k < |w| ==> Ids(r)[k] == Ids(w)[k];
      r
  }

  /** `Count` is the multiplicity of `id` among the ids. */
  lemma {:induction false} CountIsMultiplicity(s: seq<TodoItem>, id: Long)
    ensures Count(s, id) == multiset(Ids(s))[id]
  {
    if s != [] {
      var init := s[..|s| - 1];
      CountIsMultiplicity(init, id);
      assert Ids(s) == Ids(init) + [s[|s| - 1].id];
    }
  }

  // ---- Edit and Save ----

  /** Two lists with the same ids have their first match in the same place. */
  lemma IndexOfFirstByIds(a: seq<TodoItem>, b: seq<TodoItem>, id: Long)
    requires Ids(a) == Ids(b)
    ensures IndexOfFirst(a, id) == IndexOfFirst(b, id)
  {
    var i, j := IndexOfFirst(a, id), IndexOfFirst(b, id);
    assert |a| == |Ids(a)| == |Ids(b)| == |b|;
    assert forall k :: 0 <= k < |a| ==> a[k].id == Ids(a)[k] == Ids(b)[k] == b[k].id;
  }

  /** Whether the keys are distinct depends on the ids alone. */
  lemma DistinctByIds(a: seq<TodoItem>, b: seq<TodoItem>)
    requires Ids(a) == Ids(b)
    ensures DistinctIds(a) <==> DistinctIds(b)
  {
    assert |a| == |Ids(a)| == |Ids(b)| == |b|;
    assert forall k :: 0 <= k < |a| ==> a[k].id == Ids(a)[k] == Ids(b)[k] == b[k].id;
  }

  /** With distinct keys the first match is the only match, so Edit and Save
      act on the one row that has the key. */
  lemma OnlyMatch(s: seq<TodoItem>, id: Long, k: int)
    requires DistinctIds(s)
    requires 0 <= k < |s| && s[k].id == id
    ensures IndexOfFirst(s, id) == k
  {
    assert id in Ids(s) by { assert Ids(s)[k] == id; }
  }

  /** Pressing Edit twice is pressing it once. */
  lemma EditIdempotent(s: seq<TodoItem>, id: Long)
    ensures Edited(Edited(s, id), id) == Edited(s, id)
  {
    IndexOfFirstByIds(Edited(s, id), s, id);
  }

  /** Save overrides whatever Edit did: Edit followed by Save is Save. */
  lemma SaveAfterEdit(s: seq<TodoItem>, id: Long, text: string)
    ensures Saved(Edited(s, id), id, text) == Saved(s, id, text)
  {
    IndexOfFirstByIds(Edited(s, id), s, id);
  }

  /** Edit and Save never change the sequence of keys, so they keep keys
      distinct. */
  lemma EditSaveKeepDistinct(s: seq<TodoItem>, id: Long, text: string)
    requires DistinctIds(s)
    ensures DistinctIds(Edited(s, id)) && DistinctIds(Saved(s, id, text))
  {
    DistinctByIds(Edited(s, id), s);
    DistinctByIds(Saved(s, id, text), s);
  }

  // ---- Add ----

  /** Appending an item whose id is not yet present keeps keys distinct. */
  lemma AppendFreshKeepsDistinct(s: seq<TodoItem>, item: TodoItem)
    requires DistinctIds(s) && item.id !in Ids(s)
    ensures DistinctIds(s + [item])
  {
    assert forall k :: 0 <= k < |s| ==> Ids(s)[k] == s[k].id;
  }

  // ---- Delete ----

  /** Delete on an id that is not present changes nothing. */
  lemma {:induction false} WithoutAbsent(s: seq<TodoItem>, id: Long)
    requires id !in Ids(s)
    ensures Without(s, id) == s
  {
    if s != [] {
      var init := s[..|s| - 1];
      assert Ids(s) == Ids(init) + [s[|s| - 1].id];
      WithoutAbsent(init, id);
      assert init + [s[|s| - 1]] == s;
    }
  }

  /** Deleting the same id twice is deleting it once. */
  lemma WithoutIdempotent(s: seq<TodoItem>, id: Long)
    ensures Without(Without(s, id), id) == Without(s, id)
  {
    WithoutAbsent(Without(s, id), id);
  }

  /** Delete on one item drops it when it has `id` and keeps it otherwise. */
  lemma WithoutSingle(x: TodoItem, id: Long)
    ensures Without([x], id) == if x.id == id then [] else [x]
  {
  }

  /** Delete works piecewise: on a concatenation it deletes from each part
      and keeps the parts in order. With `WithoutSingle` this pins `Without` down as
      the filter that keeps the other items in their relative order. */
  lemma {:induction false} WithoutConcat(a: seq<TodoItem>, b: seq<TodoItem>, id: Long)
    ensures Without(a + b, id) == Without(a, id) + Without(b, id)
  {
    if b == [] {
      assert a + b == a;
    } else {
      var init := b[..|b| - 1];
      WithoutConcat(a, init, id);
      assert (a + b)[..|a + b| - 1] == a + init;
    }
  }

  /** Delete removes every copy of the items with `id` and keeps every other
      item as many times as it was there. */
  lemma {:induction false} WithoutMultiset(s: seq<TodoItem>, id: Long)
    ensures forall x :: multiset(Without(s, id))[x] == if x.id == id then 0 else multiset(s)[x]
  {
    if s != [] {
      var init, last := s[..|s| - 1], s[|s| - 1];
      WithoutMultiset(init, id);
      assert s == init + [last];
      assert multiset(s) == multiset(init) + multiset{last};
    }
  }

  /** Delete keeps keys distinct. */
  lemma {:induction false} WithoutKeepsDistinct(s: seq<TodoItem>, id: Long)
    requires DistinctIds(s)
    ensures DistinctIds(Without(s, id))
  {
    if s != [] {
      var init, last := s[..|s| - 1], s[|s| - 1];
      WithoutKeepsDistinct(init, id);
      if last.id != id {
        WithoutMultiset(init, id);
        var w := Without(init, id);
        forall k | 0 <= k < |w| ensures w[k].id != last.id {
          assert multiset(w)[w[k]] > 0;
          assert w[k] in init;
        }
        assert forall k :: 0 <= k < |w| ==> Ids(w)[k] == w[k].id;
        AppendFreshKeepsDistinct(w, last);
      }
    }
  }
}
