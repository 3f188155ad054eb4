/** The turns of a diff walk over its two stacks, and how many subtrees they open. */
module DiffTurns {
  import opened AvlTree
  import opened PersistentMaps
  import opened DiffStacks

  /** The stack a walk over a map starts with. */
  function Whole<K, V>(root: MapNode?<K, V>): seq<DiffItem<K, V>> {
    if root == null then [] else [Subtree(root)]
  }

  lemma WholeRests<K, V>(root: MapNode?<K, V>)
    requires Rooted(root)
    ensures Wellformed(Whole(root)) && Rest(Whole(root)) == Entries(TreeOf(root))
  {
    if root != null { PushSubtree([], root); }
  }

  /** The stack without its top. */
  function Popped<K, V>(stack: seq<DiffItem<K, V>>): seq<DiffItem<K, V>>
    requires stack != []
  {
    stack[..|stack| - 1]
  }

  predicate OnSubtree<K, V>(stack: seq<DiffItem<K, V>>) {
    stack != [] && stack[|stack| - 1].Subtree?
  }

  /** The stacks after one turn of the walk, and how many subtrees it opens. */
  function Turn<K, V>(lt: (K, K) -> bool, l: seq<DiffItem<K, V>>, r: seq<DiffItem<K, V>>)
    : (seq<DiffItem<K, V>>, seq<DiffItem<K, V>>, nat)
    requires l != [] || r != []
  {
    if OnSubtree(l) && OnSubtree(r) then Meet(l, r)
    else if OnSubtree(l) then (Expanded(l), r, 1)
    else if OnSubtree(r) then (l, Expanded(r), 1)
    else Take(lt, l, r)
  }

  /** Two subtrees: one shared is skipped, otherwise the higher is opened, or both of one height. */
  function Meet<K, V>(l: seq<DiffItem<K, V>>, r: seq<DiffItem<K, V>>): (seq<DiffItem<K, V>>, seq<DiffItem<K, V>>, nat)
    requires l != [] && r != []
  {
    var a, b := l[|l| - 1].node, r[|r| - 1].node;
    if a == b then (Popped(l), Popped(r), 0)
    else if a.height > b.height then (Expanded(l), r, 1)
    else if a.height < b.height then (l, Expanded(r), 1)
    else (Expanded(l), Expanded(r), 2)
  }

  /** Entries only: the lesser key is taken, or both of one key. */
  function Take<K, V>(lt: (K, K) -> bool, l: seq<DiffItem<K, V>>, r: seq<DiffItem<K, V>>)
    : (seq<DiffItem<K, V>>, seq<DiffItem<K, V>>, nat)
    requires l != [] || r != []
  {
    if r == [] || (l != [] && lt(l[|l| - 1].node.key, r[|r| - 1].node.key)) then (Popped(l), r, 0)
    else if l == [] || lt(r[|r| - 1].node.key, l[|l| - 1].node.key) then (l, Popped(r), 0)
    else (Popped(l), Popped(r), 0)
  }

  lemma PopLightens<K, V>(stack: seq<DiffItem<K, V>>)
    requires Wellformed(stack) && stack != []
    ensures Wellformed(Popped(stack)) && Weight(Popped(stack)) < Weight(stack)
  {
  }

  lemma MeetLightens<K, V>(l: seq<DiffItem<K, V>>, r: seq<DiffItem<K, V>>)
    requires Wellformed(l) && Wellformed(r) && OnSubtree(l) && OnSubtree(r)
    ensures var (l', r', count) := Meet(l, r);
            Wellformed(l') && Wellformed(r') && Weight(l') + Weight(r') < Weight(l) + Weight(r)
  {
    PopLightens(l);
    PopLightens(r);
    ExpandKeeps(l);
    ExpandKeeps(r);
  }

  lemma TakeLightens<K, V>(lt: (K, K) -> bool, l: seq<DiffItem<K, V>>, r: seq<DiffItem<K, V>>)
    requires Wellformed(l) && Wellformed(r) && (l != [] || r != [])
    ensures var (l', r', count) := Take(lt, l, r);
            Wellformed(l') && Wellformed(r') && Weight(l') + Weight(r') < Weight(l) + Weight(r)
  {
    if l != [] { PopLightens(l); }
    if r != [] { PopLightens(r); }
  }

  /** Every turn leaves less to do. */
  lemma TurnLightens<K, V>(lt: (K, K) -> bool, l: seq<DiffItem<K, V>>, r: seq<DiffItem<K, V>>)
    requires Wellformed(l) && Wellformed(r) && (l != [] || r != [])
    ensures var (l', r', count) := Turn(lt, l, r);
            Wellformed(l') && Wellformed(r') && Weight(l') + Weight(r') < Weight(l) + Weight(r)
  {
    if OnSubtree(l) && OnSubtree(r) {
      MeetLightens(l, r);
    } else if OnSubtree(l) {
      ExpandKeeps(l);
    } else if OnSubtree(r) {
      ExpandKeeps(r);
    } else {
      TakeLightens(lt, l, r);
    }
  }

  /** The entries that stand on a stack by themselves: each was put there when its subtree was opened. */
  function EntriesOn<K, V>(stack: seq<DiffItem<K, V>>): nat {
    if stack == [] then 0
    else EntriesOn(stack[..|stack| - 1]) + if stack[|stack| - 1].Entry? then 1 else 0
  }

  lemma EntriesOnPushed<K, V>(stack: seq<DiffItem<K, V>>, item: DiffItem<K, V>)
    ensures EntriesOn(stack + [item]) == EntriesOn(stack) + if item.Entry? then 1 else 0
  {
    assert (stack + [item])[..|stack|] == stack;
  }

  /** Opening a subtree puts one entry on the stack. */
  lemma OpeningPutsOne<K, V>(stack: seq<DiffItem<K, V>>)
    requires OnSubtree(stack)
    ensures EntriesOn(Expanded(stack)) == EntriesOn(stack) + 1
  {
    var popped, node := stack[..|stack| - 1], stack[|stack| - 1].node;
    var righted := if node.right != null then popped + [Subtree(node.right)] else popped;
    EntriesOnPushed(popped, Subtree(node));
    assert EntriesOn(righted) == EntriesOn(popped) by {
      if node.right != null { EntriesOnPushed(popped, Subtree(node.right)); }
    }
    EntriesOnPushed(righted, Entry(node));
    if node.left != null { EntriesOnPushed(righted + [Entry(node)], Subtree(node.left)); }
  }

  /** A turn at a subtree counts as opened exactly the entries it puts on the stacks; one at entries counts nothing. */
  lemma TurnCounts<K, V>(lt: (K, K) -> bool, l: seq<DiffItem<K, V>>, r: seq<DiffItem<K, V>>)
    requires l != [] || r != []
    ensures var (l', r', count) := Turn(lt, l, r);
            if OnSubtree(l) || OnSubtree(r) then EntriesOn(l') + EntriesOn(r') == EntriesOn(l) + EntriesOn(r) + count else count == 0
  {
    if OnSubtree(l) { OpeningPutsOne(l); }
    if OnSubtree(r) { OpeningPutsOne(r); }
  }

  /** How many subtrees a walk opens before it is done. */
  ghost function Openings<K, V>(lt: (K, K) -> bool, l: seq<DiffItem<K, V>>, r: seq<DiffItem<K, V>>): nat
    requires Wellformed(l) && Wellformed(r)
    decreases Weight(l) + Weight(r)
  {
    if l == [] && r == [] then 0
    else
      var (l', r', count) := Turn(lt, l, r);
      TurnLightens(lt, l, r);
      count + Openings(lt, l', r')
  }
}
