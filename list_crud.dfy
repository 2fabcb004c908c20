/**
 * The in-memory list operations the sample pages share: add an item with
 * `id: list.length + 1`, and delete by id with `filter`.
 */
module ListCrud {
  import opened Js
  import Seqs

  /** `{ ...data, id: items.length + 1 }`: the id overrides any id in the data. */
  function WithNextId(items: seq<Obj>, data: Obj): Obj
  {
    data["id" := Num(|items| + 1)]
  }

  /** `[...items, { ...data, id: items.length + 1 }]`. */
  function Added(items: seq<Obj>, data: Obj): seq<Obj>
  {
    items + [WithNextId(items, data)]
  }

  /** Adding keeps every item in place and appends one with the next id and the data's other fields. */
  lemma AddedSpec(items: seq<Obj>, data: Obj)
    ensures |Added(items, data)| == |items| + 1 && Added(items, data)[..|items|] == items
    ensures Prop(Added(items, data)[|items|], "id") == Num(|items| + 1)
    ensures forall k | k != "id" :: Prop(Added(items, data)[|items|], k) == Prop(data, k)
  {
    assert (items + [WithNextId(items, data)])[..|items|] == items;
  }

  /** `items.filter(x => x.id !== id)`. */
  function Removed(items: seq<Obj>, id: JsVal): seq<Obj>
  {
    Seqs.Filter(items, x => Prop(x, "id") != id)
  }

  /** Deleting removes every item with that id and keeps the rest in order. */
  lemma RemovedSpec(items: seq<Obj>, id: JsVal)
    ensures Seqs.IsSublist(Removed(items, id), items)
    ensures forall x :: x in Removed(items, id) <==> x in items && Prop(x, "id") != id
  {
    Seqs.FilterSpec(items, x => Prop(x, "id") != id);
  }

  /**
   * With ids 1..n, deleting id 1 and then adding gives the new item the id n,
   * which the last of the old items still has: ids are not unique.
   */
  lemma DeleteThenAddDuplicates(items: seq<Obj>, data: Obj)
    requires |items| >= 2
    requires forall i | 0 <= i < |items| :: Prop(items[i], "id") == Num(i + 1)
    ensures var r := Added(Removed(items, Num(1)), data);
      exists i, j | 0 <= i < j < |r| :: Prop(r[i], "id") == Prop(r[j], "id")
  {
    var n := |items|;
    var rest := items[1..];
    RemoveFirstOfNumbered(items);
    var r := Added(rest, data);
    assert r[n - 2] == items[n - 1];
    assert r[n - 1] == WithNextId(rest, data);
    assert Prop(r[n - 2], "id") == Num(n) == Prop(r[n - 1], "id");
  }

  /** With ids 1..n, deleting id 1 removes exactly the first item. */
  lemma RemoveFirstOfNumbered(items: seq<Obj>)
    requires |items| >= 1
    requires forall i | 0 <= i < |items| :: Prop(items[i], "id") == Num(i + 1)
    ensures Removed(items, Num(1)) == items[1..]
  {
    var rest := items[1..];
    assert forall i | 0 <= i < |rest| :: rest[i] == items[i + 1];
    Seqs.FilterAll(rest, x => Prop(x, "id") != Num(1));
    assert items == [items[0]] + rest;
  }
}
