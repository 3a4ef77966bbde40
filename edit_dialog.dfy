/** The artisan lists of the edit dialog (ui/tabs/calendar.py, class
    EditProjectDialog): the list of artisans on the project and the combo box
    of artisans that can still be added. Adding moves an artisan from the
    combo box to the list; removing moves it back. */
module EditDialog {

  import opened Records

  /** A row of the assigned list: the artisan id it carries and the name shown. */
  datatype Item = Item(id: int, name: string)

  /** An entry of the add combo box: the text shown and the id it carries. */
  datatype ComboItem = ComboItem(text: string, data: Option<int>)

  /** The combo box's first entry, which carries no artisan. */
  const Placeholder := ComboItem("Select Artisan to Add", None)

  /** The ids of the list's rows, in order. */
  function ItemIds(items: seq<Item>): (r: seq<int>)
    ensures |r| == |items|
    ensures forall k :: 0 <= k < |items| ==> r[k] == items[k].id
  {
    seq(|items|, k requires 0 <= k < |items| => items[k].id)
  }

  /** The ids of the artisan table, in order. */
  function AllIds(arts: seq<Artisan>): (r: seq<int>)
    ensures |r| == |arts|
    decreases |arts|
  {
    if arts == [] then [] else AllIds(arts[..|arts| - 1]) + [arts[|arts| - 1].id]
  }

  /** The ids the combo box's entries carry, skipping entries that carry none. */
  function ComboIds(c: seq<ComboItem>): (r: seq<int>)
    ensures |r| <= |c|
    decreases |c|
  {
    if c == [] then []
    else (if c[0].data.Some? then [c[0].data.value] else []) + ComboIds(c[1..])
  }

  /** The entry the combo box gets for an artisan when the artisan is not on the list. */
  function Offer(a: Artisan, ids: seq<int>): seq<ComboItem> {
    if a.id in ids then [] else [ComboItem(a.name, Some(a.id))]
  }

  /** The entries after the placeholder when the dialog opens: every artisan,
      in table order, whose id is not among the assigned ids. */
  function Unassigned(arts: seq<Artisan>, ids: seq<int>): (r: seq<ComboItem>)
    ensures |r| <= |arts|
    ensures forall k :: 0 <= k < |r| ==> r[k].data.Some? && r[k].data.value !in ids
    decreases |arts|
  {
    if arts == [] then [] else Unassigned(arts[..|arts| - 1], ids) + Offer(arts[|arts| - 1], ids)
  }

  /** The first artisan of the table with this id, if any. */
  function FirstWithId(arts: seq<Artisan>, id: int): (r: Option<Artisan>)
    ensures r.Some? ==> r.value in arts && r.value.id == id
    decreases |arts|
  {
    if arts == [] then None else if arts[0].id == id then Some(arts[0]) else FirstWithId(arts[1..], id)
  }

  /** What remove_artisan gives back to the combo box for a removed id: an
      entry for the first artisan with that id, or nothing. */
  function Returned(arts: seq<Artisan>, id: int): seq<ComboItem> {
    match FirstWithId(arts, id)
    case None => []
    case Some(a) => [ComboItem(a.name, Some(a.id))]
  }

  /** The list without its row at position i. */
  function Without<T>(s: seq<T>, i: nat): (r: seq<T>)
    requires i < |s|
    ensures |r| == |s| - 1
  {
    s[..i] + s[i + 1..]
  }

  /** The combo box's layout: the placeholder first, an artisan entry after it. */
  predicate Shape(c: seq<ComboItem>) {
    |c| > 0 && c[0] == Placeholder && forall k :: 1 <= k < |c| ==> c[k].data.Some?
  }

  /** The two collections partition the artisans: neither holds an id twice,
      no id is in both, the combo box offers only artisans, and every artisan
      is in one of them. */
  predicate Partition(artIds: seq<int>, listIds: seq<int>, comboIds: seq<int>) {
    && NoDup(listIds)
    && NoDup(comboIds)
    && (forall x :: x in listIds ==> x !in comboIds)
    && (forall x :: x in comboIds ==> x in artIds)
    && (forall x :: x in artIds ==> x in listIds || x in comboIds)
  }

  lemma {:induction false} ComboIdsAppend(a: seq<ComboItem>, b: seq<ComboItem>)
    ensures ComboIds(a + b) == ComboIds(a) + ComboIds(b)
    decreases |a|
  {
    if a != [] {
      ComboIdsAppend(a[1..], b);
      assert (a + b)[0] == a[0] && (a + b)[1..] == a[1..] + b;
      var head := if a[0].data.Some? then [a[0].data.value] else [];
      assert ComboIds(a + b) == head + ComboIds(a[1..] + b);
      assert ComboIds(a) == head + ComboIds(a[1..]);
    } else {
      assert a + b == b;
    }
  }

  /** An id is in the table exactly when some artisan has it. */
  lemma {:induction false} AllIdsMembers(arts: seq<Artisan>, x: int)
    ensures x in AllIds(arts) <==> exists k :: 0 <= k < |arts| && arts[k].id == x
    decreases |arts|
  {
    if arts != [] {
      var init := arts[..|arts| - 1];
      AllIdsMembers(init, x);
      if exists k :: 0 <= k < |arts| && arts[k].id == x {
        var k :| 0 <= k < |arts| && arts[k].id == x;
        if k < |init| {
          assert init[k].id == x;
        }
      }
      if exists k :: 0 <= k < |init| && init[k].id == x {
        var k :| 0 <= k < |init| && init[k].id == x;
        assert arts[k].id == x;
      }
    }
  }

  /** remove_artisan finds an artisan exactly when the table has the id. */
  lemma {:induction false} FirstWithIdFound(arts: seq<Artisan>, id: int)
    ensures FirstWithId(arts, id).Some? <==> exists k :: 0 <= k < |arts| && arts[k].id == id
    decreases |arts|
  {
    if arts != [] && arts[0].id != id {
      FirstWithIdFound(arts[1..], id);
      if exists k :: 0 <= k < |arts| && arts[k].id == id {
        var k :| 0 <= k < |arts| && arts[k].id == id;
        assert arts[1..][k - 1].id == id;
      }
      if exists k :: 0 <= k < |arts[1..]| && arts[1..][k].id == id {
        var k :| 0 <= k < |arts[1..]| && arts[1..][k].id == id;
        assert arts[k + 1].id == id;
      }
    }
  }

  /** The artisan found is the first one in the table with the id: remove_artisan
      stops at the first match. */
  lemma {:induction false} FirstWithIdIsFirst(arts: seq<Artisan>, id: int)
    ensures FirstWithId(arts, id).Some? ==>
              exists k :: 0 <= k < |arts| && arts[k] == FirstWithId(arts, id).value
                          && forall j :: 0 <= j < k ==> arts[j].id != id
    decreases |arts|
  {
    if arts != [] && arts[0].id != id {
      FirstWithIdIsFirst(arts[1..], id);
      var r := FirstWithId(arts, id);
      if r.Some? {
        var k :| 0 <= k < |arts[1..]| && arts[1..][k] == r.value && forall j :: 0 <= j < k ==> arts[1..][j].id != id;
        forall j | 0 <= j < k + 1
          ensures arts[j].id != id
        {
          if j > 0 {
            assert arts[j] == arts[1..][j - 1];
          }
        }
        assert arts[k + 1] == r.value;
      }
    } else if arts != [] {
      assert arts[0] == FirstWithId(arts, id).value;
    }
  }

  /** The id remove_artisan gives back is the removed id, when it is an artisan's. */
  lemma {:induction false} ReturnedIds(arts: seq<Artisan>, id: int)
    ensures ComboIds(Returned(arts, id)) == if id in AllIds(arts) then [id] else []
  {
    FirstWithIdFound(arts, id);
    AllIdsMembers(arts, id);
    var r := Returned(arts, id);
    if r != [] {
      assert r[1..] == [];
    }
  }

  /** The combo box opens offering exactly the artisans not already assigned. */
  lemma {:induction false} UnassignedMembers(arts: seq<Artisan>, ids: seq<int>, x: int)
    ensures x in ComboIds(Unassigned(arts, ids)) <==> x in AllIds(arts) && x !in ids
    decreases |arts|
  {
    if arts != [] {
      var init := arts[..|arts| - 1];
      var last := arts[|arts| - 1];
      UnassignedMembers(init, ids, x);
      ComboIdsAppend(Unassigned(init, ids), Offer(last, ids));
      if last.id !in ids {
        assert ComboIds(Offer(last, ids)) == [last.id] by {
          assert Offer(last, ids)[1..] == [];
        }
      }
    }
  }

  lemma {:induction false} NoDupSnoc(s: seq<int>, x: int)
    requires NoDup(s) && x !in s
    ensures NoDup(s + [x])
  {
    var t := s + [x];
    forall i, j | 0 <= i < j < |t|
      ensures t[i] != t[j]
    {
      if j == |s| {
        assert t[i] == s[i] && s[i] in s;
      } else {
        assert t[i] == s[i] && t[j] == s[j];
      }
    }
  }

  /** A table without repeated ids gives a combo box without repeated ids. */
  lemma {:induction false} UnassignedNoDup(arts: seq<Artisan>, ids: seq<int>)
    requires NoDup(AllIds(arts))
    ensures NoDup(ComboIds(Unassigned(arts, ids)))
    decreases |arts|
  {
    if arts != [] {
      var init := arts[..|arts| - 1];
      var last := arts[|arts| - 1];
      assert AllIds(arts) == AllIds(init) + [last.id];
      assert NoDup(AllIds(init)) by {
        forall i, j | 0 <= i < j < |AllIds(init)|
          ensures AllIds(init)[i] != AllIds(init)[j]
        {
          assert AllIds(arts)[i] == AllIds(init)[i] && AllIds(arts)[j] == AllIds(init)[j];
        }
      }
      UnassignedNoDup(init, ids);
      ComboIdsAppend(Unassigned(init, ids), Offer(last, ids));
      if last.id !in ids {
        assert ComboIds(Offer(last, ids)) == [last.id] by {
          assert Offer(last, ids)[1..] == [];
        }
        assert last.id !in AllIds(init) by {
          forall i | 0 <= i < |AllIds(init)|
            ensures AllIds(init)[i] != last.id
          {
            assert AllIds(arts)[i] == AllIds(init)[i] && AllIds(arts)[|init|] == last.id;
          }
        }
        UnassignedMembers(init, ids, last.id);
        NoDupSnoc(ComboIds(Unassigned(init, ids)), last.id);
      }
    }
  }

  /** The dialog opens with the artisans partitioned, when the table and the
      assigned list each hold every id once. */
  lemma {:induction false} UnassignedPartition(arts: seq<Artisan>, items: seq<Item>)
    requires NoDup(AllIds(arts)) && NoDup(ItemIds(items))
    ensures Shape([Placeholder] + Unassigned(arts, ItemIds(items)))
    ensures Partition(AllIds(arts), ItemIds(items), ComboIds([Placeholder] + Unassigned(arts, ItemIds(items))))
  {
    var ids := ItemIds(items);
    var u := Unassigned(arts, ids);
    ComboIdsAppend([Placeholder], u);
    assert ComboIds([Placeholder]) == [];
    UnassignedNoDup(arts, ids);
    forall x
      ensures x in ComboIds(u) <==> x in AllIds(arts) && x !in ids
    {
      UnassignedMembers(arts, ids, x);
    }
  }

  lemma {:induction false} NoDupRemove(a: seq<int>, x: int, b: seq<int>)
    requires NoDup(a + [x] + b)
    ensures NoDup(a + b) && x !in a + b
  {
    var s := a + [x] + b;
    var t := a + b;
    forall i, j | 0 <= i < j < |t|
      ensures t[i] != t[j]
    {
      var i' := if i < |a| then i else i + 1;
      var j' := if j < |a| then j else j + 1;
      assert t[i] == s[i'] && t[j] == s[j'];
    }
    forall i | 0 <= i < |t|
      ensures t[i] != x
    {
      var i' := if i < |a| then i else i + 1;
      assert t[i] == s[i'] && s[|a|] == x;
    }
  }

  /** Moving an id from the combo box to the list keeps the partition. */
  lemma {:induction false} MoveKeepsPartition(artIds: seq<int>, list: seq<int>, a: seq<int>, x: int, b: seq<int>)
    requires Partition(artIds, list, a + [x] + b)
    ensures Partition(artIds, list + [x], a + b)
  {
    NoDupRemove(a, x, b);
    assert x in a + [x] + b;
    NoDupSnoc(list, x);
    assert forall y :: y in a + b <==> y in a + [x] + b && y != x;
  }

  /** Moving an id from the list back to the combo box, when it is an
      artisan's, keeps the partition. */
  lemma {:induction false} ReturnKeepsPartition(artIds: seq<int>, a: seq<int>, x: int, b: seq<int>, combo: seq<int>)
    requires Partition(artIds, a + [x] + b, combo)
    ensures Partition(artIds, a + b, combo + if x in artIds then [x] else [])
  {
    NoDupRemove(a, x, b);
    assert x in a + [x] + b;
    if x in artIds {
      NoDupSnoc(combo, x);
    }
    assert forall y :: y in a + b <==> y in a + [x] + b && y != x;
  }

  /** add_artisan on an entry after the placeholder keeps the partition. */
  lemma {:induction false} AddKeepsPartition(artIds: seq<int>, items: seq<Item>, c: seq<ComboItem>, k: nat)
    requires Shape(c) && Partition(artIds, ItemIds(items), ComboIds(c))
    requires 1 <= k < |c|
    ensures Shape(Without(c, k))
    ensures Partition(artIds, ItemIds(items + [Item(c[k].data.value, c[k].text)]), ComboIds(Without(c, k)))
  {
    var x := c[k].data.value;
    assert c == c[..k] + [c[k]] + c[k + 1..];
    ComboIdsAppend(c[..k] + [c[k]], c[k + 1..]);
    ComboIdsAppend(c[..k], [c[k]]);
    ComboIdsAppend(c[..k], c[k + 1..]);
    assert ComboIds([c[k]]) == [x] by {
      assert [c[k]][1..] == [];
    }
    MoveKeepsPartition(artIds, ItemIds(items), ComboIds(c[..k]), x, ComboIds(c[k + 1..]));
    assert ItemIds(items + [Item(x, c[k].text)]) == ItemIds(items) + [x];
    var w := Without(c, k);
    forall j | 1 <= j < |w|
      ensures w[j].data.Some?
    {
      assert w[j] == if j < k then c[j] else c[j + 1];
    }
  }

  /** remove_artisan on the row at position i keeps the partition. */
  lemma {:induction false} RemoveKeepsPartition(arts: seq<Artisan>, items: seq<Item>, c: seq<ComboItem>, i: nat)
    requires Shape(c) && Partition(AllIds(arts), ItemIds(items), ComboIds(c))
    requires i < |items|
    ensures Shape(c + Returned(arts, items[i].id))
    ensures Partition(AllIds(arts), ItemIds(Without(items, i)), ComboIds(c + Returned(arts, items[i].id)))
  {
    var x := items[i].id;
    var ids := ItemIds(items);
    assert ids == ids[..i] + [x] + ids[i + 1..];
    assert ItemIds(Without(items, i)) == ids[..i] + ids[i + 1..];
    ReturnKeepsPartition(AllIds(arts), ids[..i], x, ids[i + 1..], ComboIds(c));
    ComboIdsAppend(c, Returned(arts, x));
    ReturnedIds(arts, x);
  }

  /** Without repeated ids the partition can fail: a project that lists the
      same artisan twice opens the dialog with that id twice in the list, and
      removing one copy offers the artisan in the combo box while the other
      copy stays in the list. */
  lemma DuplicateBreaksDisjointness()
    ensures var arts := [Artisan(7, "A", None)];
            var items := [Item(7, "A"), Item(7, "A")];
            var c := [Placeholder] + Unassigned(arts, ItemIds(items));
            var c' := c + Returned(arts, items[0].id);
            && c == [Placeholder]
            && 7 in ItemIds(Without(items, 0)) && 7 in ComboIds(c')
  {
    var arts := [Artisan(7, "A", None)];
    var items := [Item(7, "A"), Item(7, "A")];
    assert ItemIds(items) == [7, 7];
    assert arts[..0] == [];
    var c := [Placeholder] + Unassigned(arts, ItemIds(items));
    assert c == [Placeholder];
    var c' := c + Returned(arts, 7);
    assert Returned(arts, 7) == [ComboItem("A", Some(7))];
    ComboIdsAppend(c, Returned(arts, 7));
    assert ComboIds([ComboItem("A", Some(7))]) == [7] by {
      assert [ComboItem("A", Some(7))][1..] == [];
    }
    assert ComboIds(c) == [] by {
      assert c[1..] == [];
    }
    assert ItemIds(Without(items, 0)) == [7];
  }

  /** Removing an entry that carries an id takes exactly that id out of the
      combo box's ids. */
  lemma {:induction false} ComboIdsWithout(c: seq<ComboItem>, i: nat)
    requires i < |c| && c[i].data.Some?
    ensures multiset(ComboIds(c)) == multiset(ComboIds(Without(c, i))) + multiset{c[i].data.value}
  {
    assert c == c[..i] + [c[i]] + c[i + 1..];
    ComboIdsAppend(c[..i] + [c[i]], c[i + 1..]);
    ComboIdsAppend(c[..i], [c[i]]);
    ComboIdsAppend(c[..i], c[i + 1..]);
    assert ComboIds([c[i]]) == [c[i].data.value] by {
      assert [c[i]][1..] == [];
    }
  }

  /** The entry Qt makes current once the current entry, at position index, has
      been removed and n entries are left: the one that moved into its place,
      or the last one. */
  function AfterRemoval(index: nat, n: nat): (r: nat)
    ensures n > 0 ==> r < n
    ensures index < n ==> r == index
    ensures n > 0 && n <= index ==> r == n - 1
  {
    if index < n then index else if n > 0 then n - 1 else 0
  }

  /** add_artisan as the program runs it: it is connected to the combo box's
      index-changed signal, and removing the current entry makes another entry
      current, which signals again. The handler so runs once more for every
      entry that becomes current, until the placeholder does. */
  function Cascade(items: seq<Item>, c: seq<ComboItem>, index: nat): (r: (seq<Item>, seq<ComboItem>))
    ensures |r.0| + |r.1| == |items| + |c|
    ensures multiset(ItemIds(r.0)) + multiset(ComboIds(r.1)) == multiset(ItemIds(items)) + multiset(ComboIds(c))
    decreases |c|
  {
    if index < |c| && Truthy(c[index].data) then
      var rest := Without(c, index);
      ComboIdsWithout(c, index);
      assert ItemIds(items + [Item(c[index].data.value, c[index].text)]) == ItemIds(items) + [c[index].data.value];
      Cascade(items + [Item(c[index].data.value, c[index].text)], rest, AfterRemoval(index, |rest|))
    else (items, c)
  }

  /** Removing an entry after the placeholder keeps the layout and every
      remaining entry's id truthy. */
  lemma {:induction false} ShapeWithout(c: seq<ComboItem>, k: nat)
    requires Shape(c) && 1 <= k < |c|
    requires forall j :: 1 <= j < |c| ==> c[j].data.value != 0
    ensures Shape(Without(c, k))
    ensures forall j :: 1 <= j < |Without(c, k)| ==> Without(c, k)[j].data.value != 0
  {
    var w := Without(c, k);
    forall j | 1 <= j < |w|
      ensures w[j].data.Some? && w[j].data.value != 0
    {
      assert w[j] == if j < k then c[j] else c[j + 1];
    }
  }

  /** Choosing one artisan in the combo box moves every artisan it offers to
      the list, leaving only the placeholder. */
  lemma {:induction false} CascadeEmptiesCombo(items: seq<Item>, c: seq<ComboItem>, index: nat)
    requires Shape(c) && 1 <= index < |c|
    requires forall j :: 1 <= j < |c| ==> c[j].data.value != 0
    ensures Cascade(items, c, index).1 == [Placeholder]
    ensures |Cascade(items, c, index).0| == |items| + |c| - 1
    decreases |c|
  {
    var rest := Without(c, index);
    var items' := items + [Item(c[index].data.value, c[index].text)];
    ShapeWithout(c, index);
    var next := AfterRemoval(index, |rest|);
    if |rest| >= 2 {
      CascadeEmptiesCombo(items', rest, next);
    } else {
      assert rest == [Placeholder];
    }
  }

  /** Each run of the handler keeps the partition, so the cascade does too. */
  lemma {:induction false} CascadeKeepsPartition(artIds: seq<int>, items: seq<Item>, c: seq<ComboItem>, index: nat)
    requires Shape(c) && Partition(artIds, ItemIds(items), ComboIds(c))
    ensures Shape(Cascade(items, c, index).1)
    ensures Partition(artIds, ItemIds(Cascade(items, c, index).0), ComboIds(Cascade(items, c, index).1))
    decreases |c|
  {
    if index < |c| && Truthy(c[index].data) {
      assert index != 0;
      AddKeepsPartition(artIds, items, c, index);
      var rest := Without(c, index);
      CascadeKeepsPartition(artIds, items + [Item(c[index].data.value, c[index].text)], rest, AfterRemoval(index, |rest|));
    }
  }

  /** As written, choosing any one artisan in the combo box assigns every
      artisan: the list ends up holding all of them. */
  lemma {:induction false} CascadeAssignsAll(artIds: seq<int>, items: seq<Item>, c: seq<ComboItem>, index: nat)
    requires Shape(c) && Partition(artIds, ItemIds(items), ComboIds(c))
    requires 1 <= index < |c|
    requires forall j :: 1 <= j < |c| ==> c[j].data.value != 0
    ensures Cascade(items, c, index).1 == [Placeholder]
    ensures forall x :: x in artIds ==> x in ItemIds(Cascade(items, c, index).0)
  {
    CascadeEmptiesCombo(items, c, index);
    CascadeKeepsPartition(artIds, items, c, index);
    assert ComboIds([Placeholder]) == [] by {
      assert [Placeholder][1..] == [];
    }
  }

  class EditProjectDialog {
    /** The artisan table the dialog was opened with. */
    const artisans: seq<Artisan>
    /** The rows of the assigned list, top to bottom. */
    var assignedList: seq<Item>
    /** The entries of the add combo box, the placeholder first. */
    var combo: seq<ComboItem>

    ghost predicate Partitioned()
      reads this
    {
      Shape(combo) && Partition(AllIds(artisans), ItemIds(assignedList), ComboIds(combo))
    }

    /** init_ui: the list shows the project's artisans; the combo box offers
        the placeholder and then every other artisan. */
    constructor (artisans: seq<Artisan>, assignedArtisans: seq<Item>)
      ensures this.artisans == artisans && assignedList == assignedArtisans
      ensures combo == [Placeholder] + Unassigned(artisans, ItemIds(assignedArtisans))
    {
      var ids := ItemIds(assignedArtisans);
      var entries := [Placeholder];
      var k := 0;
      while k < |artisans|
        invariant 0 <= k <= |artisans|
        invariant entries == [Placeholder] + Unassigned(artisans[..k], ids)
      {
        if artisans[k].id !in ids {
          entries := entries + [ComboItem(artisans[k].name, Some(artisans[k].id))];
        }
        assert artisans[..k + 1][..k] == artisans[..k];
        k := k + 1;
      }
      assert artisans[..|artisans|] == artisans;
      this.artisans := artisans;
      assignedList := assignedArtisans;
      combo := entries;
    }

    /** add_artisan for the entry at position index: an entry carrying a truthy
        id moves to the end of the list; the placeholder, or an entry whose id
        is falsy, changes nothing. */
    method AddArtisan(index: nat)
      modifies this`assignedList, this`combo
      ensures index < |old(combo)| && Truthy(old(combo)[index].data) ==>
                && assignedList == old(assignedList) + [Item(old(combo)[index].data.value, old(combo)[index].text)]
                && combo == Without(old(combo), index)
      ensures !(index < |old(combo)| && Truthy(old(combo)[index].data)) ==>
                assignedList == old(assignedList) && combo == old(combo)
      ensures old(Partitioned()) ==> Partitioned()
    {
      var data := if index < |combo| then combo[index].data else None;
      if Truthy(data) {
        if Partitioned() {
          AddKeepsPartition(AllIds(artisans), assignedList, combo, index);
        }
        assignedList := assignedList + [Item(data.value, combo[index].text)];
        combo := Without(combo, index);
      }
    }

    /** remove_artisan with the list's selection: no selection only warns; the
        selected row leaves the list and the first artisan with its id, if
        any, goes back to the end of the combo box. The list allows one
        selected row at a time. */
    method RemoveArtisan(selected: Option<nat>) returns (warned: bool)
      requires selected.Some? ==> selected.value < |assignedList|
      modifies this`assignedList, this`combo
      ensures warned <==> selected.None?
      ensures selected.None? ==> assignedList == old(assignedList) && combo == old(combo)
      ensures selected.Some? ==>
                && assignedList == Without(old(assignedList), selected.value)
                && combo == old(combo) + Returned(artisans, old(assignedList)[selected.value].id)
      ensures old(Partitioned()) ==> Partitioned()
    {
      if selected.None? {
        return true;
      }
      var i := selected.value;
      var id := assignedList[i].id;
      if Partitioned() {
        RemoveKeepsPartition(artisans, assignedList, combo, i);
      }
      ghost var back := Returned(artisans, id);
      assignedList := Without(assignedList, i);
      var k := 0;
      while k < |artisans|
        invariant 0 <= k <= |artisans|
        invariant FirstWithId(artisans[k..], id) == FirstWithId(artisans, id)
        invariant combo == old(combo)
      {
        assert artisans[k..][1..] == artisans[k + 1..];
        if artisans[k].id == id {
          combo := combo + [ComboItem(artisans[k].name, Some(artisans[k].id))];
          break;
        }
        k := k + 1;
      }
      assert combo == old(combo) + back;
      warned := false;
    }

    /** get_data's artisan list: the ids of the list's rows, top to bottom. */
    method AssignedIds() returns (ids: seq<int>)
      ensures ids == ItemIds(assignedList)
    {
      ids := [];
      var i := 0;
      while i < |assignedList|
        invariant 0 <= i <= |assignedList|
        invariant ids == ItemIds(assignedList[..i])
      {
        ids := ids + [assignedList[i].id];
        i := i + 1;
      }
      assert assignedList[..i] == assignedList;
    }
  }
}
