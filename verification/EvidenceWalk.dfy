/** The explicit worklist over JSON trees, and what it visits. */
module EvidenceWalk {
  import opened Common

  datatype Tree = Leaf(text: string) | List(items: seq<Tree>) | Mapping(fields: seq<Field>)

  datatype Field = Field(name: string, value: Tree)

  /** The values of a mapping, in order. */
  function Values(fields: seq<Field>): seq<Tree>
    ensures |Values(fields)| == |fields|
    ensures forall i :: 0 <= i < |fields| ==> Values(fields)[i] == fields[i].value
  {
    seq(|fields|, i requires 0 <= i < |fields| => fields[i].value)
  }

  function Children(t: Tree): seq<Tree> {
    match t
    case Leaf(_) => []
    case List(items) => items
    case Mapping(fields) => Values(fields)
  }

  function Own(t: Tree): seq<Tree> {
    if t.Mapping? then [t] else []
  }

  /** The number of nodes of a tree, and of a list of trees. */
  function Size(t: Tree): nat
    decreases t, 0
  {
    1 + match t
        case Leaf(_) => 0
        case List(items) => Sizes(items)
        case Mapping(fields) => FieldSizes(fields)
  }

  function Sizes(ts: seq<Tree>): nat
    decreases ts
  {
    if ts == [] then 0 else Sizes(Init(ts)) + Size(Last(ts))
  }

  function FieldSizes(fields: seq<Field>): nat
    decreases fields
  {
    if fields == [] then 0 else FieldSizes(Init(fields)) + Size(fields[|fields| - 1].value)
  }

  /** All mappings of a tree, itself first, by structural recursion in document order. */
  function Preorder(t: Tree): seq<Tree>
    decreases t, 0
  {
    Own(t) + match t
             case Leaf(_) => []
             case List(items) => Preorders(items)
             case Mapping(fields) => FieldPreorders(fields)
  }

  function Preorders(ts: seq<Tree>): seq<Tree>
    decreases ts
  {
    if ts == [] then [] else Preorders(Init(ts)) + Preorder(Last(ts))
  }

  function FieldPreorders(fields: seq<Field>): seq<Tree>
    decreases fields
  {
    if fields == [] then [] else FieldPreorders(Init(fields)) + Preorder(fields[|fields| - 1].value)
  }

  lemma {:induction false} SizesOfValues(fields: seq<Field>)
    ensures Sizes(Values(fields)) == FieldSizes(fields)
  {
    if fields == [] {
    } else {
      SizesOfValues(Init(fields));
      assert Init(Values(fields)) == Values(Init(fields));
    }
  }

  lemma {:induction false} PreordersOfValues(fields: seq<Field>)
    ensures Preorders(Values(fields)) == FieldPreorders(fields)
  {
    if fields == [] {
    } else {
      PreordersOfValues(Init(fields));
      assert Init(Values(fields)) == Values(Init(fields));
    }
  }

  /** A tree is its own mapping, if it is one, and those of its children. */
  lemma NodeIs(t: Tree)
    ensures Preorder(t) == Own(t) + Preorders(Children(t))
    ensures Size(t) == 1 + Sizes(Children(t))
  {
    if t.Mapping? {
      SizesOfValues(t.fields);
      PreordersOfValues(t.fields);
    }
  }

  lemma {:induction false} SizesConcat(a: seq<Tree>, b: seq<Tree>)
    ensures Sizes(a + b) == Sizes(a) + Sizes(b)
  {
    if b == [] {
      assert a + b == a;
    } else {
      SizesConcat(a, Init(b));
      assert Init(a + b) == a + Init(b);
    }
  }

  lemma PreordersGrow(a: seq<Tree>, t: Tree)
    ensures Preorders(a + [t]) == Preorders(a) + Preorder(t)
  {
    assert Init(a + [t]) == a;
  }

  lemma {:induction false} PreordersConcat(a: seq<Tree>, b: seq<Tree>)
    ensures Preorders(a + b) == Preorders(a) + Preorders(b)
    decreases |b|
  {
    if b == [] {
      assert a + b == a;
    } else {
      var front, t := Init(b), Last(b);
      assert b == front + [t];
      ConcatAssociates(a, front, [t]);
      PreordersConcat(a, front);
      PreordersGrow(a + front, t);
      PreordersGrow(front, t);
      ConcatAssociates(Preorders(a), Preorders(front), Preorder(t));
    }
  }

  /** Replacing the last pending tree by its children leaves less to do. */
  lemma PendingShrinks(pending: seq<Tree>)
    requires pending != []
    ensures Sizes(Init(pending) + Children(Last(pending))) < Sizes(pending)
  {
    NodeIs(Last(pending));
    SizesConcat(Init(pending), Children(Last(pending)));
  }

  /** The mappings in the order the worklist visits them: last pending tree first. */
  function Visit(pending: seq<Tree>): seq<Tree>
    decreases Sizes(pending)
  {
    if pending == [] then []
    else
      PendingShrinks(pending);
      Own(Last(pending)) + Visit(Init(pending) + Children(Last(pending)))
  }

  /** The worklist visits the same multiset of mappings as structural recursion. */
  lemma {:induction false} VisitPermutes(pending: seq<Tree>)
    ensures multiset(Visit(pending)) == multiset(Preorders(pending))
    decreases Sizes(pending)
  {
    if pending == [] {
    } else {
      var front, t := Init(pending), Last(pending);
      PendingShrinks(pending);
      VisitPermutes(front + Children(t));
      NodeIs(t);
      PreordersConcat(front, Children(t));
    }
  }

  /** The mappings visited for one value are exactly those of the tree, each as often as it
      occurs. */
  lemma VisitOne(value: Tree)
    ensures multiset(Visit([value])) == multiset(Preorder(value))
  {
    VisitPermutes([value]);
    PreordersGrow([], value);
    assert [] + [value] == [value] && [] + Preorder(value) == Preorder(value);
  }

  /** The tree is one of these, or a part of one. */
  ghost predicate Inside(m: Tree, ts: seq<Tree>)
    decreases ts
  {
    exists i :: 0 <= i < |ts| && (m == ts[i] || InsideOne(m, ts[i]))
  }

  ghost predicate InsideOne(m: Tree, t: Tree)
    decreases t
  {
    match t
    case Leaf(_) => false
    case List(items) => Inside(m, items)
    case Mapping(fields) => exists i :: 0 <= i < |fields| && (m == fields[i].value || InsideOne(m, fields[i].value))
  }

  lemma InsideChildren(m: Tree, t: Tree)
    ensures InsideOne(m, t) <==> Inside(m, Children(t))
  {
    if t.Mapping? {
      forall i | 0 <= i < |t.fields| ensures Values(t.fields)[i] == t.fields[i].value {}
    }
  }

  lemma InsideConcat(m: Tree, a: seq<Tree>, b: seq<Tree>)
    ensures Inside(m, a + b) <==> Inside(m, a) || Inside(m, b)
  {
    if i :| 0 <= i < |a| && (m == a[i] || InsideOne(m, a[i])) {
      assert (a + b)[i] == a[i];
    }
    if i :| 0 <= i < |b| && (m == b[i] || InsideOne(m, b[i])) {
      assert (a + b)[|a| + i] == b[i];
    }
  }

  lemma InsideLast(m: Tree, front: seq<Tree>, t: Tree)
    ensures Inside(m, front + [t]) <==> Inside(m, front) || m == t || InsideOne(m, t)
  {
    InsideConcat(m, front, [t]);
    assert [t][0] == t;
  }

  lemma OwnIs(t: Tree, m: Tree)
    ensures m in Own(t) <==> m == t && t.Mapping?
  {}

  /** What is visited is exactly the mappings among the pending trees and their parts. */
  lemma {:induction false} VisitsMappings(pending: seq<Tree>, m: Tree)
    ensures m in Visit(pending) <==> m.Mapping? && Inside(m, pending)
    decreases Sizes(pending)
  {
    if pending == [] {
    } else {
      var front, t := Init(pending), Last(pending);
      PendingShrinks(pending);
      VisitsMappings(front + Children(t), m);
      OwnIs(t, m);
      InsideConcat(m, front, Children(t));
      InsideChildren(m, t);
      InsideLast(m, front, t);
      assert pending == front + [t];
    }
  }

  /** The loop of the program. It terminates. */
  method WalkJsonMappings(value: Tree) returns (found: seq<Tree>)
    ensures found == Visit([value])
  {
    found := [];
    var pending := [value];
    ghost var all := Visit(pending);
    while pending != []
      invariant found + Visit(pending) == all
      decreases Sizes(pending)
    {
      PendingShrinks(pending);
      var current := Last(pending);
      ghost var next := Init(pending) + Children(current);
      ghost var before, rest := found, Visit(next);
      assert Visit(pending) == Own(current) + rest;
      assert before + (Own(current) + rest) == (before + Own(current)) + rest;
      if current.Mapping? {
        found := found + [current];
        pending := Init(pending) + Values(current.fields);
      } else if current.List? {
        pending := Init(pending) + current.items;
      } else {
        pending := Init(pending);
      }
      assert pending == next && found == before + Own(current);
    }
  }
}
