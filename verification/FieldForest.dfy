/** The field tree as it is read from the table: a flat list, sorted so that parents come before their
    children, turned into a forest by one pass from the back. */
module FieldForest {

  datatype Item = Item(id: string, parent: string)

  datatype Tree = Tree(item: Item, children: seq<Tree>)

  /** The trees under `parent`: its items in list order, each with the later items that are its children. */
  function Forest(all: seq<Item>, parent: string): seq<Tree>
    decreases |all|
  {
    if all == [] then []
    else (if all[0].parent == parent then [Tree(all[0], Forest(all[1..], all[0].id))] else []) + Forest(all[1..], parent)
  }

  function Flatten(trees: seq<Tree>): seq<Item>
    decreases trees
  {
    if trees == [] then [] else [trees[0].item] + Flatten(trees[0].children) + Flatten(trees[1..])
  }

  /** Every item's parent is one of `parents` or an earlier item, and no id is given twice. */
  predicate ParentsFirst(all: seq<Item>, parents: set<string>)
    decreases |all|
  {
    all == [] || (all[0].parent in parents && all[0].id !in parents && ParentsFirst(all[1..], parents + {all[0].id}))
  }

  lemma {:induction false} FlattenCons(t: Tree, rest: seq<Tree>)
    ensures Flatten([t] + rest) == [t.item] + Flatten(t.children) + Flatten(rest)
  {
    assert ([t] + rest)[1..] == rest;
  }

  /** All items of the forests under some parents. */
  ghost function Under(all: seq<Item>, parents: set<string>): multiset<Item>
    decreases |parents|
  {
    if parents == {} then multiset{}
    else
      var p :| p in parents;
      multiset(Flatten(Forest(all, p))) + Under(all, parents - {p})
  }

  /** The order in which the parents are taken does not matter. */
  lemma {:induction false} UnderOne(all: seq<Item>, parents: set<string>, p: string)
    requires p in parents
    ensures Under(all, parents) == multiset(Flatten(Forest(all, p))) + Under(all, parents - {p})
    decreases |parents|
  {
    var q :| q in parents && Under(all, parents) == multiset(Flatten(Forest(all, q))) + Under(all, parents - {q});
    if q != p {
      UnderOne(all, parents - {q}, p);
      UnderOne(all, parents - {p}, q);
      assert parents - {q} - {p} == parents - {p} - {q};
    }
  }

  lemma {:induction false} OtherForest(all: seq<Item>, p: string)
    requires all != [] && all[0].parent != p
    ensures Forest(all, p) == Forest(all[1..], p)
  {
  }

  lemma {:induction false} UnderOthers(all: seq<Item>, parents: set<string>)
    requires all != [] && all[0].parent !in parents
    ensures Under(all, parents) == Under(all[1..], parents)
    decreases |parents|
  {
    if parents != {} {
      var p :| p in parents;
      UnderOne(all, parents, p);
      UnderOne(all[1..], parents, p);
      OtherForest(all, p);
      UnderOthers(all, parents - {p});
    }
  }

  /** The first item appears under its parent, followed by its own descendants. */
  lemma {:induction false} FirstUnder(all: seq<Item>, parents: set<string>)
    requires all != [] && all[0].parent in parents && all[0].id !in parents
    ensures Under(all, parents) == multiset{all[0]} + Under(all[1..], parents + {all[0].id})
  {
    var rest, first := all[1..], all[0];
    var mine := Tree(first, Forest(rest, first.id));
    UnderOne(all, parents, first.parent);
    UnderOthers(all, parents - {first.parent});
    FlattenCons(mine, Forest(rest, first.parent));
    assert Forest(all, first.parent) == [mine] + Forest(rest, first.parent);
    UnderOne(rest, parents, first.parent);
    UnderOne(rest, parents + {first.id}, first.id);
    assert parents + {first.id} - {first.id} == parents;
  }

  lemma {:induction false} EmptyUnder(parents: set<string>)
    ensures Under([], parents) == multiset{}
    decreases |parents|
  {
    if parents != {} {
      var p :| p in parents;
      UnderOne([], parents, p);
      EmptyUnder(parents - {p});
    }
  }

  lemma {:induction false} EveryItemUnder(all: seq<Item>, parents: set<string>)
    requires ParentsFirst(all, parents)
    ensures Under(all, parents) == multiset(all)
    decreases |all|
  {
    if all == [] {
      EmptyUnder(parents);
    } else {
      var first, rest := all[0], all[1..];
      calc {
        Under(all, parents);
        { FirstUnder(all, parents); }
        multiset{first} + Under(rest, parents + {first.id});
        { EveryItemUnder(rest, parents + {first.id}); }
        multiset{first} + multiset(rest);
        { assert all == [first] + rest; }
        multiset(all);
      }
    }
  }

  /** The forest holds every field exactly once. */
  lemma {:induction false} ForestHoldsEveryItem(all: seq<Item>)
    requires ParentsFirst(all, {""})
    ensures multiset(Flatten(Forest(all, ""))) == multiset(all)
  {
    EveryItemUnder(all, {""});
    UnderOne(all, {""}, "");
    assert {""} - {""} == {};
  }

  /** The items directly under `parent`, in list order. */
  function ChildrenOf(all: seq<Item>, parent: string): seq<Item> {
    if all == [] then []
    else (if all[0].parent == parent then [all[0]] else []) + ChildrenOf(all[1..], parent)
  }

  /** Siblings keep the order of the list, and what hangs below each of them is the forest of its own id. */
  lemma {:induction false} SiblingsInListOrder(all: seq<Item>, parent: string)
    ensures |Forest(all, parent)| == |ChildrenOf(all, parent)|
    ensures forall i :: 0 <= i < |Forest(all, parent)| ==> Forest(all, parent)[i].item == ChildrenOf(all, parent)[i]
    decreases |all|
  {
    if all != [] { SiblingsInListOrder(all[1..], parent); }
  }

  /** listFields: one map of lists, filled from the back of the list. */
  method ListFields(all: seq<Item>) returns (roots: seq<Tree>)
    ensures roots == Forest(all, "")
  {
    var byParent: map<string, seq<Tree>> := map[];
    var i := |all|;
    while i > 0
      invariant 0 <= i <= |all|
      invariant forall p :: (if p in byParent then byParent[p] else []) == Forest(all[i..], p)
    {
      i := i - 1;
      assert all[i..][0] == all[i] && all[i..][1..] == all[i + 1..];
      var children := if all[i].id in byParent then byParent[all[i].id] else [];
      var siblings := if all[i].parent in byParent then byParent[all[i].parent] else [];
      forall p | p != all[i].parent ensures Forest(all[i..], p) == Forest(all[i + 1..], p) {
        assert [] + Forest(all[i + 1..], p) == Forest(all[i + 1..], p);
      }
      byParent := byParent[all[i].parent := [Tree(all[i], children)] + siblings];
    }
    assert all[0..] == all;
    return if "" in byParent then byParent[""] else [];
  }
}
