/**
 * What a diff walk may still cost. Every opening of a subtree is paid for by a
 * node the other map does not hold, or by a key the other map does not bind: it
 * keeps a shared subtree from meeting itself, at most once a level.
 */
module DiffCosts {
  import opened Ordering
  import opened Sequences
  import opened SortedEntries
  import opened AvlTree
  import opened PersistentMaps
  import opened DiffStacks
  import opened DiffTurns
  import opened DiffNodes
  import opened DiffSets

  ghost predicate Orderly<K, V>(lt: (K, K) -> bool, high: nat, stack: seq<DiffItem<K, V>>) {
    Wellformed(stack) && Leveled(stack, high) && Sorted(lt, Ahead(stack))
  }

  /**
   * Where the two stacks stand: each is in order, whatever shared node one has
   * ahead the other has too, and no other node is ahead of both.
   */
  ghost predicate Ledger<K(!new), V>(lt: (K, K) -> bool, shared: set<MapNode<K, V>>, high: nat, l: seq<DiffItem<K, V>>, r: seq<DiffItem<K, V>>) {
    && StrictTotal(lt) && Orderly(lt, high, l) && Orderly(lt, high, r) && ClosedBelow(shared)
    && Even(shared, Members(Ahead(l)), Members(Ahead(r)))
  }

  /** Both sides have an entry ahead and the first keys differ, so one map alone binds the smaller. */
  ghost predicate Parted<K, V>(al: seq<MapNode<K, V>>, ar: seq<MapNode<K, V>>) {
    al != [] && ar != [] && al[0].key != ar[0].key
  }

  /** What shared subtrees may still be opened for: a height for every key ahead on one side only, less what is spent. */
  ghost function Budget<K, V>(lt: (K, K) -> bool, high: nat, alone: nat, l: seq<DiffItem<K, V>>, r: seq<DiffItem<K, V>>): nat
    requires Wellformed(l) && Wellformed(r)
  {
    if Parted(Ahead(l), Ahead(r)) && alone > 0 then
      high * (alone - 1) + TopHeight(if lt(Ahead(l)[0].key, Ahead(r)[0].key) then r else l)
    else high * alone
  }

  /** How many keys are ahead on one side only. */
  ghost function Alone<K, V>(l: seq<DiffItem<K, V>>, r: seq<DiffItem<K, V>>): nat
    requires Wellformed(l) && Wellformed(r)
  {
    |OneSided(Keys(Ahead(l)), Keys(Ahead(r)))|
  }

  /** A bound on the subtrees still to be opened. */
  ghost function Potential<K, V>(lt: (K, K) -> bool, shared: set<MapNode<K, V>>, high: nat, l: seq<DiffItem<K, V>>, r: seq<DiffItem<K, V>>): nat
    requires Wellformed(l) && Wellformed(r)
  {
    Cost(shared, Unopened(l), Unopened(r)) + 2 * Budget(lt, high, Alone(l, r), l, r)
  }

  // ---------- either side alike ----------

  lemma BudgetAlike<K(!new), V>(lt: (K, K) -> bool, high: nat, alone: nat, l: seq<DiffItem<K, V>>, r: seq<DiffItem<K, V>>)
    requires StrictTotal(lt) && Wellformed(l) && Wellformed(r)
    ensures Budget(lt, high, alone, l, r) == Budget(lt, high, alone, r, l)
  {
  }

  lemma LedgerAlike<K(!new), V>(lt: (K, K) -> bool, shared: set<MapNode<K, V>>, high: nat, l: seq<DiffItem<K, V>>, r: seq<DiffItem<K, V>>)
    requires Ledger(lt, shared, high, l, r)
    ensures Ledger(lt, shared, high, r, l)
  {
    EvenAlike(shared, Members(Ahead(l)), Members(Ahead(r)));
  }

  lemma PotentialAlike<K(!new), V>(lt: (K, K) -> bool, shared: set<MapNode<K, V>>, high: nat, l: seq<DiffItem<K, V>>, r: seq<DiffItem<K, V>>)
    requires StrictTotal(lt) && Wellformed(l) && Wellformed(r)
    ensures Potential(lt, shared, high, l, r) == Potential(lt, shared, high, r, l)
  {
    Alike(shared, Unopened(l), Unopened(r));
    OneSidedAlike(Keys(Ahead(l)), Keys(Ahead(r)));
    BudgetAlike(lt, high, Alone(l, r), l, r);
  }

  // ---------- opening a subtree ----------

  lemma ExpandKeepsLedger<K(!new), V>(lt: (K, K) -> bool, shared: set<MapNode<K, V>>, high: nat, l: seq<DiffItem<K, V>>, r: seq<DiffItem<K, V>>)
    requires Ledger(lt, shared, high, l, r) && l != [] && l[|l| - 1].Subtree?
    ensures Ledger(lt, shared, high, Expanded(l), r)
    ensures Alone(Expanded(l), r) == Alone(l, r)
  {
    ExpandOpensOne(lt, l, high);
  }

  /** Opening never raises the budget. */
  lemma ExpandKeepsBudget<K(!new), V>(lt: (K, K) -> bool, shared: set<MapNode<K, V>>, high: nat, l: seq<DiffItem<K, V>>, r: seq<DiffItem<K, V>>)
    requires Ledger(lt, shared, high, l, r) && l != [] && l[|l| - 1].Subtree?
    ensures Wellformed(Expanded(l))
    ensures Budget(lt, high, Alone(l, r), Expanded(l), r) <= Budget(lt, high, Alone(l, r), l, r)
    ensures Parted(Ahead(l), Ahead(r)) && Alone(l, r) > 0 && lt(Ahead(r)[0].key, Ahead(l)[0].key) ==>
              Budget(lt, high, Alone(l, r), Expanded(l), r) < Budget(lt, high, Alone(l, r), l, r)
  {
    ExpandOpensOne(lt, l, high);
    if Parted(Ahead(l), Ahead(r)) && lt(Ahead(r)[0].key, Ahead(l)[0].key) {
      Asymmetric(lt, Ahead(r)[0].key, Ahead(l)[0].key);
    }
  }

  /** Opening a node of one map alone pays for itself. */
  lemma OwnPays<K(!new), V>(lt: (K, K) -> bool, shared: set<MapNode<K, V>>, high: nat, l: seq<DiffItem<K, V>>, r: seq<DiffItem<K, V>>)
    requires Ledger(lt, shared, high, l, r) && l != [] && l[|l| - 1].Subtree? && l[|l| - 1].node !in shared
    ensures Wellformed(Expanded(l)) && Potential(lt, shared, high, Expanded(l), r) < Potential(lt, shared, high, l, r)
  {
    var n := l[|l| - 1].node;
    ExpandOpensOne(lt, l, high);
    ExpandKeepsLedger(lt, shared, high, l, r);
    ExpandKeepsBudget(lt, shared, high, l, r);
    UnopenedIsAhead(l, n);
    assert n !in Unopened(r) by {
      if n in Unopened(r) { UnopenedIsAhead(r, n); }
    }
    OwnShrinks(shared, Unopened(l), Unopened(r), n);
  }

  /** The first node ahead of a shared subtree is shared, so the other side has it ahead. */
  lemma SharedFirst<K(!new), V>(lt: (K, K) -> bool, shared: set<MapNode<K, V>>, high: nat, l: seq<DiffItem<K, V>>, r: seq<DiffItem<K, V>>)
    requires Ledger(lt, shared, high, l, r) && l != [] && l[|l| - 1].Subtree? && l[|l| - 1].node in shared
    ensures Ahead(l) != [] && Ahead(l)[0] in Nodes(l[|l| - 1].node) && Ahead(l)[0] in shared
    ensures r != [] && Ahead(r) != [] && Ahead(l)[0] in Ahead(r)
    ensures Ahead(r)[0] == Ahead(l)[0] || (lt(Ahead(r)[0].key, Ahead(l)[0].key) && Alone(l, r) > 0)
  {
    FirstIsLeftmost(l);
    var first := Ahead(l)[0];
    EvenAt(shared, Members(Ahead(l)), Members(Ahead(r)), first);
    assert first in Members(Ahead(l)) && first in Members(Ahead(r));
    var i :| 0 <= i < |Ahead(r)| && Ahead(r)[i] == first;
    if i > 0 {
      FirstIsAlone(lt, shared, high, l, r);
    }
  }

  /** A first key below the other side's is a key of one side only. */
  lemma FirstIsAlone<K(!new), V>(lt: (K, K) -> bool, shared: set<MapNode<K, V>>, high: nat, l: seq<DiffItem<K, V>>, r: seq<DiffItem<K, V>>)
    requires Ledger(lt, shared, high, l, r) && Ahead(r) != []
    requires Ahead(l) == [] || lt(Ahead(r)[0].key, Ahead(l)[0].key)
    ensures Ahead(r)[0].key !in Keys(Ahead(l)) && Ahead(r)[0].key in Keys(Ahead(r)) && Alone(l, r) > 0
  {
    var first := Ahead(r)[0];
    forall i | 0 <= i < |Ahead(l)| ensures Ahead(l)[i].key != first.key {
      assert i > 0 ==> lt(Ahead(l)[0].key, Ahead(l)[i].key);
    }
    assert first in Ahead(r);
    assert first.key in OneSided(Keys(Ahead(l)), Keys(Ahead(r)));
  }

  /** The other side does not stand at this subtree, nor at a higher one: it is done, at an entry, or no higher. */
  ghost predicate NoHigher<K, V>(n: MapNode<K, V>, r: seq<DiffItem<K, V>>) {
    r == [] || r[|r| - 1].Entry? || (r[|r| - 1].node != n && r[|r| - 1].node.height <= n.height)
  }

  /** A shared subtree whose first entry is the other side's too has been opened there. */
  lemma OpenedThere<K(!new), V>(lt: (K, K) -> bool, shared: set<MapNode<K, V>>, high: nat, l: seq<DiffItem<K, V>>, r: seq<DiffItem<K, V>>)
    requires Ledger(lt, shared, high, l, r) && l != [] && l[|l| - 1].Subtree? && l[|l| - 1].node in shared
    requires NoHigher(l[|l| - 1].node, r) && Ahead(l) != [] && Ahead(r) != [] && Ahead(r)[0] == Ahead(l)[0]
    ensures l[|l| - 1].node !in Unopened(r)
  {
    var n := l[|l| - 1].node;
    FirstIsLeftmost(l);
    if n in Unopened(r) {
      FirstLiesOnTop(lt, r, n, Ahead(l)[0]);
      BelowIsLower(r[|r| - 1].node, n);
    }
  }

  /** Opening a shared subtree that waits on a smaller key spends a level of that key's node. */
  lemma WaitingPays<K(!new), V>(lt: (K, K) -> bool, shared: set<MapNode<K, V>>, high: nat, l: seq<DiffItem<K, V>>, r: seq<DiffItem<K, V>>)
    requires Ledger(lt, shared, high, l, r) && l != [] && l[|l| - 1].Subtree? && l[|l| - 1].node in shared
    requires Parted(Ahead(l), Ahead(r)) && lt(Ahead(r)[0].key, Ahead(l)[0].key) && Alone(l, r) > 0
    ensures Wellformed(Expanded(l)) && Potential(lt, shared, high, Expanded(l), r) < Potential(lt, shared, high, l, r)
  {
    var n := l[|l| - 1].node;
    ExpandOpensOne(lt, l, high);
    ExpandKeepsLedger(lt, shared, high, l, r);
    ExpandKeepsBudget(lt, shared, high, l, r);
    LagMoves(shared, Unopened(l), Unopened(r), n);
  }

  /** Opening a shared subtree at the other side's first entry makes up for its opening there. */
  lemma MeetingPays<K(!new), V>(lt: (K, K) -> bool, shared: set<MapNode<K, V>>, high: nat, l: seq<DiffItem<K, V>>, r: seq<DiffItem<K, V>>)
    requires Ledger(lt, shared, high, l, r) && l != [] && l[|l| - 1].Subtree? && l[|l| - 1].node in shared
    requires NoHigher(l[|l| - 1].node, r) && Ahead(l) != [] && Ahead(r) != [] && Ahead(r)[0] == Ahead(l)[0]
    ensures Wellformed(Expanded(l)) && Potential(lt, shared, high, Expanded(l), r) < Potential(lt, shared, high, l, r)
  {
    var n := l[|l| - 1].node;
    ExpandOpensOne(lt, l, high);
    ExpandKeepsLedger(lt, shared, high, l, r);
    ExpandKeepsBudget(lt, shared, high, l, r);
    OpenedThere(lt, shared, high, l, r);
    LagShrinks(shared, Unopened(l), Unopened(r), n);
  }

  lemma OpenPays<K(!new), V>(lt: (K, K) -> bool, shared: set<MapNode<K, V>>, high: nat, l: seq<DiffItem<K, V>>, r: seq<DiffItem<K, V>>)
    requires Ledger(lt, shared, high, l, r) && l != [] && l[|l| - 1].Subtree? && NoHigher(l[|l| - 1].node, r)
    ensures Ledger(lt, shared, high, Expanded(l), r)
    ensures Potential(lt, shared, high, Expanded(l), r) < Potential(lt, shared, high, l, r)
  {
    ExpandKeepsLedger(lt, shared, high, l, r);
    if l[|l| - 1].node in shared {
      SharedFirst(lt, shared, high, l, r);
      if Ahead(r)[0] == Ahead(l)[0] {
        MeetingPays(lt, shared, high, l, r);
      } else {
        WaitingPays(lt, shared, high, l, r);
      }
    } else {
      OwnPays(lt, shared, high, l, r);
    }
  }

  /** The same on the right. */
  lemma OpenPaysRight<K(!new), V>(lt: (K, K) -> bool, shared: set<MapNode<K, V>>, high: nat, l: seq<DiffItem<K, V>>, r: seq<DiffItem<K, V>>)
    requires Ledger(lt, shared, high, l, r) && r != [] && r[|r| - 1].Subtree? && NoHigher(r[|r| - 1].node, l)
    ensures Ledger(lt, shared, high, l, Expanded(r))
    ensures Potential(lt, shared, high, l, Expanded(r)) < Potential(lt, shared, high, l, r)
  {
    LedgerAlike(lt, shared, high, l, r);
    PotentialAlike(lt, shared, high, l, r);
    OpenPays(lt, shared, high, r, l);
    LedgerAlike(lt, shared, high, Expanded(r), l);
    PotentialAlike(lt, shared, high, l, Expanded(r));
  }

  // ---------- skipping, and taking entries ----------

  lemma {:induction false} SuffixSorted<K, V>(lt: (K, K) -> bool, a: seq<MapNode<K, V>>, b: seq<MapNode<K, V>>)
    requires Sorted(lt, a + b)
    ensures Sorted(lt, b)
  {
    assert forall i :: 0 <= i < |b| ==> (a + b)[|a| + i] == b[i];
  }

  /** In order, the front of a sequence and the rest have no key in common, and so no node. */
  lemma PartsApart<K(!new), V>(lt: (K, K) -> bool, a: seq<MapNode<K, V>>, b: seq<MapNode<K, V>>)
    requires StrictTotal(lt) && Sorted(lt, a + b)
    ensures Members(a) !! Members(b) && Keys(a) !! Keys(b)
  {
    forall i, j | 0 <= i < |a| && 0 <= j < |b| ensures a[i].key != b[j].key {
      assert (a + b)[i] == a[i] && (a + b)[|a| + j] == b[j];
    }
  }

  /** Dropping what is on top leaves the rest in order, with its nodes ahead and unopened taken away. */
  lemma PopTakes<K(!new), V>(lt: (K, K) -> bool, high: nat, stack: seq<DiffItem<K, V>>)
    requires StrictTotal(lt) && Orderly(lt, high, stack) && stack != []
    ensures Orderly(lt, high, Popped(stack))
    ensures Members(Ahead(Popped(stack))) == Members(Ahead(stack)) - Members(ItemNodes(stack[|stack| - 1]))
    ensures Keys(Ahead(Popped(stack))) == Keys(Ahead(stack)) - Keys(ItemNodes(stack[|stack| - 1]))
    ensures Keys(ItemNodes(stack[|stack| - 1])) <= Keys(Ahead(stack))
    ensures Unopened(Popped(stack)) == Unopened(stack) - ItemUnopened(stack[|stack| - 1])
  {
    var top, rest := ItemNodes(stack[|stack| - 1]), Ahead(Popped(stack));
    SuffixSorted(lt, top, rest);
    PartsApart(lt, top, rest);
    MembersConcat(top, rest);
    KeysConcat(top, rest);
    forall n | n in Unopened(Popped(stack)) ensures n !in ItemUnopened(stack[|stack| - 1]) {
      UnopenedIsAhead(Popped(stack), n);
    }
  }

  /** The budget is never more than a height for every key ahead on one side only. */
  lemma BudgetIsAtMost<K(!new), V>(lt: (K, K) -> bool, high: nat, alone: nat, l: seq<DiffItem<K, V>>, r: seq<DiffItem<K, V>>)
    requires Wellformed(l) && Wellformed(r) && Leveled(l, high) && Leveled(r, high)
    ensures Budget(lt, high, alone, l, r) <= high * alone
  {
    LeveledTop(l, high);
    LeveledTop(r, high);
    if alone > 0 {
      assert high * (alone - 1) + high == high * alone;
    }
  }

  lemma SkipKeepsLedger<K(!new), V>(lt: (K, K) -> bool, shared: set<MapNode<K, V>>, high: nat, l: seq<DiffItem<K, V>>, r: seq<DiffItem<K, V>>)
    requires Ledger(lt, shared, high, l, r) && l != [] && r != [] && l[|l| - 1] == r[|r| - 1]
    ensures Ledger(lt, shared, high, Popped(l), Popped(r))
    ensures Members(ItemNodes(l[|l| - 1])) <= shared
  {
    PopTakes(lt, high, l);
    PopTakes(lt, high, r);
    BothTaken(shared, Members(Ahead(l)), Members(Ahead(r)), Members(ItemNodes(l[|l| - 1])));
  }

  /** Skipping a shared subtree costs nothing. */
  lemma SkipPays<K(!new), V>(lt: (K, K) -> bool, shared: set<MapNode<K, V>>, high: nat, l: seq<DiffItem<K, V>>, r: seq<DiffItem<K, V>>)
    requires Ledger(lt, shared, high, l, r) && l != [] && r != [] && l[|l| - 1] == r[|r| - 1]
    ensures Ledger(lt, shared, high, Popped(l), Popped(r))
    ensures Potential(lt, shared, high, Popped(l), Popped(r)) <= Potential(lt, shared, high, l, r)
  {
    var keys, unopened := Keys(ItemNodes(l[|l| - 1])), ItemUnopened(l[|l| - 1]);
    SkipKeepsLedger(lt, shared, high, l, r);
    PopTakes(lt, high, l);
    PopTakes(lt, high, r);
    OneSidedStays(Keys(Ahead(l)), Keys(Ahead(r)), keys);
    SharedCost(shared, Unopened(l), Unopened(r), unopened);
    FirstIsLeftmost(l);
    FirstIsLeftmost(r);
    BudgetIsAtMost(lt, high, Alone(l, r), Popped(l), Popped(r));
  }

  /** Taking the entry on top of one side, which is not ahead on the other, takes its key. */
  lemma TakeKeepsLedger<K(!new), V>(lt: (K, K) -> bool, shared: set<MapNode<K, V>>, high: nat, l: seq<DiffItem<K, V>>, r: seq<DiffItem<K, V>>)
    requires Ledger(lt, shared, high, l, r) && l != [] && l[|l| - 1].Entry?
    requires l[|l| - 1].node !in Ahead(r)
    ensures Ledger(lt, shared, high, Popped(l), r)
    ensures Members(Ahead(Popped(l))) == Members(Ahead(l)) - {l[|l| - 1].node} && Unopened(Popped(l)) == Unopened(l)
    ensures Keys(Ahead(Popped(l))) == Keys(Ahead(l)) - {l[|l| - 1].node.key} && l[|l| - 1].node.key in Keys(Ahead(l))
  {
    var n := l[|l| - 1].node;
    PopTakes(lt, high, l);
    assert Members([n]) == {n} && Keys([n]) == {n.key};
    OneTaken(shared, Members(Ahead(l)), Members(Ahead(r)), n);
  }

  lemma OneLess(high: nat, alone: nat)
    requires alone > 0
    ensures high * (alone - 1) + high == high * alone
  {
  }

  /** The budget falls by a height when a key of one side only is taken. */
  lemma TakeBudget<K(!new), V>(lt: (K, K) -> bool, high: nat, alone: nat, l: seq<DiffItem<K, V>>, r: seq<DiffItem<K, V>>)
    requires Wellformed(l) && Wellformed(r) && Leveled(l, high) && Leveled(r, high) && l != [] && alone > 0
    requires r == [] || (r[|r| - 1].Entry? && lt(Ahead(l)[0].key, Ahead(r)[0].key))
    ensures Budget(lt, high, alone - 1, Popped(l), r) <= Budget(lt, high, alone, l, r)
  {
    BudgetIsAtMost(lt, high, alone - 1, Popped(l), r);
    OneLess(high, alone);
  }

  /** An entry of one side alone leaves one key fewer ahead on one side only. */
  lemma TakeAlone<K(!new), V>(lt: (K, K) -> bool, shared: set<MapNode<K, V>>, high: nat, l: seq<DiffItem<K, V>>, r: seq<DiffItem<K, V>>)
    requires Ledger(lt, shared, high, l, r) && l != [] && l[|l| - 1].Entry?
    requires Ahead(r) == [] || lt(l[|l| - 1].node.key, Ahead(r)[0].key)
    ensures Ledger(lt, shared, high, Popped(l), r) && Unopened(Popped(l)) == Unopened(l)
    ensures Alone(Popped(l), r) == Alone(l, r) - 1
  {
    LedgerAlike(lt, shared, high, l, r);
    FirstIsAlone(lt, shared, high, r, l);
    TakeKeepsLedger(lt, shared, high, l, r);
    OneSidedShrinks(Keys(Ahead(l)), Keys(Ahead(r)), l[|l| - 1].node.key);
  }

  /** Taking an entry of one side alone costs nothing. */
  lemma TakePays<K(!new), V>(lt: (K, K) -> bool, shared: set<MapNode<K, V>>, high: nat, l: seq<DiffItem<K, V>>, r: seq<DiffItem<K, V>>)
    requires Ledger(lt, shared, high, l, r) && l != [] && l[|l| - 1].Entry?
    requires r == [] || (r[|r| - 1].Entry? && lt(l[|l| - 1].node.key, r[|r| - 1].node.key))
    ensures Ledger(lt, shared, high, Popped(l), r)
    ensures Potential(lt, shared, high, Popped(l), r) <= Potential(lt, shared, high, l, r)
  {
    TakeAlone(lt, shared, high, l, r);
    TakeBudget(lt, high, Alone(l, r), l, r);
  }

  lemma TakePaysRight<K(!new), V>(lt: (K, K) -> bool, shared: set<MapNode<K, V>>, high: nat, l: seq<DiffItem<K, V>>, r: seq<DiffItem<K, V>>)
    requires Ledger(lt, shared, high, l, r) && r != [] && r[|r| - 1].Entry?
    requires l == [] || (l[|l| - 1].Entry? && lt(r[|r| - 1].node.key, l[|l| - 1].node.key))
    ensures Ledger(lt, shared, high, l, Popped(r))
    ensures Potential(lt, shared, high, l, Popped(r)) <= Potential(lt, shared, high, l, r)
  {
    LedgerAlike(lt, shared, high, l, r);
    PotentialAlike(lt, shared, high, l, r);
    TakePays(lt, shared, high, r, l);
    LedgerAlike(lt, shared, high, Popped(r), l);
    PotentialAlike(lt, shared, high, l, Popped(r));
  }

  /** Two nodes with one key, on one side each, are neither of them shared. */
  lemma SameKeyApart<K(!new), V>(lt: (K, K) -> bool, shared: set<MapNode<K, V>>, high: nat, l: seq<DiffItem<K, V>>, r: seq<DiffItem<K, V>>)
    requires Ledger(lt, shared, high, l, r) && l != [] && r != [] && l[|l| - 1].Entry? && r[|r| - 1].Entry?
    requires l[|l| - 1].node != r[|r| - 1].node && l[|l| - 1].node.key == r[|r| - 1].node.key
    ensures l[|l| - 1].node !in Ahead(r)
  {
    var a, b := l[|l| - 1].node, r[|r| - 1].node;
    assert Ahead(l)[0] == a && Ahead(r)[0] == b;
    assert a in Ahead(l);
    forall j | 0 <= j < |Ahead(r)| ensures Ahead(r)[j] != a {
      if Ahead(r)[j].key == b.key {
        SortedOnce(lt, Ahead(r), 0, j);
      }
    }
  }

  /** Taking two entries of one key costs nothing, whether they are one node or two. */
  lemma TakeBothPays<K(!new), V>(lt: (K, K) -> bool, shared: set<MapNode<K, V>>, high: nat, l: seq<DiffItem<K, V>>, r: seq<DiffItem<K, V>>)
    requires Ledger(lt, shared, high, l, r) && l != [] && r != [] && l[|l| - 1].Entry? && r[|r| - 1].Entry?
    requires l[|l| - 1].node.key == r[|r| - 1].node.key
    ensures Ledger(lt, shared, high, Popped(l), Popped(r))
    ensures Potential(lt, shared, high, Popped(l), Popped(r)) <= Potential(lt, shared, high, l, r)
  {
    if l[|l| - 1].node == r[|r| - 1].node {
      SkipPays(lt, shared, high, l, r);
    } else {
      TakeApartPays(lt, shared, high, l, r);
    }
  }

  lemma TakeApartKeeps<K(!new), V>(lt: (K, K) -> bool, shared: set<MapNode<K, V>>, high: nat, l: seq<DiffItem<K, V>>, r: seq<DiffItem<K, V>>)
    requires Ledger(lt, shared, high, l, r) && l != [] && r != [] && l[|l| - 1].Entry? && r[|r| - 1].Entry?
    requires l[|l| - 1].node.key == r[|r| - 1].node.key && l[|l| - 1].node != r[|r| - 1].node
    ensures Ledger(lt, shared, high, Popped(l), Popped(r))
    ensures Unopened(Popped(l)) == Unopened(l) && Unopened(Popped(r)) == Unopened(r)
    ensures Alone(Popped(l), Popped(r)) == Alone(l, r)
  {
    LedgerAlike(lt, shared, high, l, r);
    SameKeyApart(lt, shared, high, l, r);
    SameKeyApart(lt, shared, high, r, l);
    TakeKeepsLedger(lt, shared, high, l, r);
    LedgerAlike(lt, shared, high, Popped(l), r);
    assert r[|r| - 1].node !in Members(Ahead(Popped(l)));
    TakeKeepsLedger(lt, shared, high, r, Popped(l));
    LedgerAlike(lt, shared, high, Popped(r), Popped(l));
    OneSidedStays(Keys(Ahead(l)), Keys(Ahead(r)), {l[|l| - 1].node.key});
  }

  lemma TakeApartPays<K(!new), V>(lt: (K, K) -> bool, shared: set<MapNode<K, V>>, high: nat, l: seq<DiffItem<K, V>>, r: seq<DiffItem<K, V>>)
    requires Ledger(lt, shared, high, l, r) && l != [] && r != [] && l[|l| - 1].Entry? && r[|r| - 1].Entry?
    requires l[|l| - 1].node.key == r[|r| - 1].node.key && l[|l| - 1].node != r[|r| - 1].node
    ensures Ledger(lt, shared, high, Popped(l), Popped(r))
    ensures Potential(lt, shared, high, Popped(l), Popped(r)) <= Potential(lt, shared, high, l, r)
  {
    TakeApartKeeps(lt, shared, high, l, r);
    BudgetIsAtMost(lt, high, Alone(Popped(l), Popped(r)), Popped(l), Popped(r));
  }

  /** Two subtrees of one height, neither the other, are both opened, and both pay. */
  lemma OpenBothPays<K(!new), V>(lt: (K, K) -> bool, shared: set<MapNode<K, V>>, high: nat, l: seq<DiffItem<K, V>>, r: seq<DiffItem<K, V>>)
    requires Ledger(lt, shared, high, l, r) && l != [] && r != [] && l[|l| - 1].Subtree? && r[|r| - 1].Subtree?
    requires l[|l| - 1].node != r[|r| - 1].node && l[|l| - 1].node.height == r[|r| - 1].node.height
    ensures Ledger(lt, shared, high, Expanded(l), Expanded(r))
    ensures Potential(lt, shared, high, Expanded(l), Expanded(r)) + 2 <= Potential(lt, shared, high, l, r)
  {
    ExpandOpensOne(lt, l, high);
    OpenPays(lt, shared, high, l, r);
    OpenPaysRight(lt, shared, high, Expanded(l), r);
  }

  // ---------- a whole walk ----------

  /** The nodes both maps hold. */
  ghost function Both<K, V>(a: MapNode?<K, V>, b: MapNode?<K, V>): set<MapNode<K, V>>
    requires Rooted(a) && Rooted(b)
  {
    NodeSet(a) * NodeSet(b)
  }

  /** The nodes one of the maps holds and the other does not. */
  ghost function Unshared<K, V>(a: MapNode?<K, V>, b: MapNode?<K, V>): set<MapNode<K, V>>
    requires Rooted(a) && Rooted(b)
  {
    OneSided(NodeSet(a), NodeSet(b))
  }

  function Higher<K, V>(a: MapNode?<K, V>, b: MapNode?<K, V>): nat {
    Max(NodeHeight(a), NodeHeight(b))
  }

  /** The keys one of the maps binds and the other does not. */
  ghost function BoundOnce<K, V>(a: MapNode?<K, V>, b: MapNode?<K, V>): set<K> {
    OneSided(Contents(TreeOf(a)).Keys, Contents(TreeOf(b)).Keys)
  }

  /** One for each of some nodes, and twice the height for each of some keys. */
  function Levels(nodes: nat, high: nat, keys: nat): nat {
    nodes + 2 * (high * keys)
  }

  /** What a walk over two maps may cost. */
  ghost function Allowance<K, V>(a: MapNode?<K, V>, b: MapNode?<K, V>): nat
    requires Rooted(a) && Rooted(b)
  {
    Levels(|Unshared(a, b)|, Higher(a, b), |BoundOnce(a, b)|)
  }

  lemma WholeIsOrderly<K(!new), V>(lt: (K, K) -> bool, root: MapNode?<K, V>, high: nat)
    requires StrictTotal(lt) && Rooted(root) && Avl(lt, TreeOf(root)) && NodeHeight(root) <= high
    ensures Orderly(lt, high, Whole(root)) && Ahead(Whole(root)) == Nodes(root)
    ensures Unopened(Whole(root)) == Members(Nodes(root))
  {
    SearchedNodesAreSorted(lt, root);
    ChildPushed([], root, high);
    assert WithChild([], root) == Whole(root);
  }

  /** Whatever lies below a node both maps hold, both maps hold. */
  lemma BothIsClosed<K, V>(a: MapNode?<K, V>, b: MapNode?<K, V>)
    requires Rooted(a) && Rooted(b) && Balanced(TreeOf(a))
    ensures ClosedBelow(Both(a, b))
  {
    NodesAreNodeSet(a);
    NodesAreNodeSet(b);
    assert forall n :: n in Both(a, b) ==> n in Members(Nodes(a)) && n in Members(Nodes(b));
    forall n | n in Both(a, b) ensures n.Valid() {
      BelowIsLower(a, n);
    }
    forall n, below | n in Both(a, b) && below in Nodes(n) ensures below in Both(a, b) {
      BelowIsWithin(a, n, below);
      BelowIsWithin(b, n, below);
    }
  }

  /** The keys of a tree's nodes are the keys it binds. */
  lemma KeysAreBound<K(!new), V>(root: MapNode?<K, V>)
    requires Rooted(root)
    ensures Keys(Nodes(root)) == Contents(TreeOf(root)).Keys
  {
    var nodes, entries := Nodes(root), Entries(TreeOf(root));
    forall i | 0 <= i < |nodes| ensures |nodes| == |entries| && nodes[i].key == entries[i].0 {
      NodesAreEntries(root, i);
    }
    NodesAreEntries(root, 0);
    forall key: K ensures key in Keys(nodes) <==> key in MapOf(entries) {
      MapOfKeys(entries, key);
      if key in MapOf(entries) {
        var i :| 0 <= i < |entries| && entries[i].0 == key;
        assert nodes[i] in nodes;
      }
    }
  }

  /** A walk starts with no more to pay than its allowance. */
  lemma StartsWithin<K(!new), V>(lt: (K, K) -> bool, a: MapNode?<K, V>, b: MapNode?<K, V>)
    requires StrictTotal(lt) && Rooted(a) && Rooted(b) && Avl(lt, TreeOf(a)) && Avl(lt, TreeOf(b))
    ensures Ledger(lt, Both(a, b), Higher(a, b), Whole(a), Whole(b))
    ensures Potential(lt, Both(a, b), Higher(a, b), Whole(a), Whole(b)) <= Allowance(a, b)
  {
    var high, both := Higher(a, b), Both(a, b);
    NodesAreNodeSet(a);
    NodesAreNodeSet(b);
    WholeIsOrderly(lt, a, high);
    WholeIsOrderly(lt, b, high);
    BothIsClosed(a, b);
    SplitByBoth(NodeSet(a), NodeSet(b));
    KeysAreBound(a);
    KeysAreBound(b);
    BudgetIsAtMost(lt, high, |BoundOnce(a, b)|, Whole(a), Whole(b));
  }

  // ---------- turn by turn ----------

  lemma MeetPays<K(!new), V>(lt: (K, K) -> bool, shared: set<MapNode<K, V>>, high: nat, l: seq<DiffItem<K, V>>, r: seq<DiffItem<K, V>>)
    requires Ledger(lt, shared, high, l, r) && OnSubtree(l) && OnSubtree(r)
    ensures var (l', r', count) := Meet(l, r);
            Ledger(lt, shared, high, l', r') && count + Potential(lt, shared, high, l', r') <= Potential(lt, shared, high, l, r)
  {
    var a, b := l[|l| - 1].node, r[|r| - 1].node;
    if a == b {
      SkipPays(lt, shared, high, l, r);
    } else if a.height > b.height {
      OpenPays(lt, shared, high, l, r);
    } else if a.height < b.height {
      OpenPaysRight(lt, shared, high, l, r);
    } else {
      OpenBothPays(lt, shared, high, l, r);
    }
  }

  lemma TakesPay<K(!new), V>(lt: (K, K) -> bool, shared: set<MapNode<K, V>>, high: nat, l: seq<DiffItem<K, V>>, r: seq<DiffItem<K, V>>)
    requires Ledger(lt, shared, high, l, r) && !OnSubtree(l) && !OnSubtree(r) && (l != [] || r != [])
    ensures var (l', r', count) := Take(lt, l, r);
            Ledger(lt, shared, high, l', r') && count + Potential(lt, shared, high, l', r') <= Potential(lt, shared, high, l, r)
  {
    if r == [] || (l != [] && lt(l[|l| - 1].node.key, r[|r| - 1].node.key)) {
      TakePays(lt, shared, high, l, r);
    } else if l == [] || lt(r[|r| - 1].node.key, l[|l| - 1].node.key) {
      TakePaysRight(lt, shared, high, l, r);
    } else {
      TakeBothPays(lt, shared, high, l, r);
    }
  }

  /** Every turn pays for the subtrees it opens. */
  lemma TurnPays<K(!new), V>(lt: (K, K) -> bool, shared: set<MapNode<K, V>>, high: nat, l: seq<DiffItem<K, V>>, r: seq<DiffItem<K, V>>)
    requires Ledger(lt, shared, high, l, r) && (l != [] || r != [])
    ensures var (l', r', count) := Turn(lt, l, r);
            Ledger(lt, shared, high, l', r') && count + Potential(lt, shared, high, l', r') <= Potential(lt, shared, high, l, r)
  {
    if OnSubtree(l) && OnSubtree(r) {
      MeetPays(lt, shared, high, l, r);
    } else if OnSubtree(l) {
      OpenPays(lt, shared, high, l, r);
    } else if OnSubtree(r) {
      OpenPaysRight(lt, shared, high, l, r);
    } else {
      TakesPay(lt, shared, high, l, r);
    }
  }

  lemma {:induction false} OpeningsWithin<K(!new), V>(lt: (K, K) -> bool, shared: set<MapNode<K, V>>, high: nat, l: seq<DiffItem<K, V>>, r: seq<DiffItem<K, V>>)
    requires Ledger(lt, shared, high, l, r)
    ensures Openings(lt, l, r) <= Potential(lt, shared, high, l, r)
    decreases Weight(l) + Weight(r)
  {
    if l != [] || r != [] {
      var (l', r', count) := Turn(lt, l, r);
      TurnLightens(lt, l, r);
      TurnPays(lt, shared, high, l, r);
      OpeningsWithin(lt, shared, high, l', r');
    }
  }

  /**
   * A walk over two maps opens no more subtrees than one for each node that only
   * one of them holds, and twice the height for each key that only one of them
   * binds, whatever else they hold.
   */
  lemma OpeningsAreBounded<K(!new), V>(lt: (K, K) -> bool, a: MapNode?<K, V>, b: MapNode?<K, V>)
    requires StrictTotal(lt) && Rooted(a) && Rooted(b) && Avl(lt, TreeOf(a)) && Avl(lt, TreeOf(b))
    ensures Wellformed(Whole(a)) && Wellformed(Whole(b))
    ensures Openings(lt, Whole(a), Whole(b)) <= Allowance(a, b)
  {
    StartsWithin(lt, a, b);
    OpeningsWithin(lt, Both(a, b), Higher(a, b), Whole(a), Whole(b));
  }

  /** The same written out, for any bound on the heights. */
  lemma OpeningsAtMost<K(!new), V>(lt: (K, K) -> bool, a: MapNode?<K, V>, b: MapNode?<K, V>, high: nat)
    requires StrictTotal(lt) && Rooted(a) && Rooted(b) && Avl(lt, TreeOf(a)) && Avl(lt, TreeOf(b))
    requires NodeHeight(a) <= high && NodeHeight(b) <= high
    ensures Wellformed(Whole(a)) && Wellformed(Whole(b))
    ensures Openings(lt, Whole(a), Whole(b)) <= |Unshared(a, b)| + 2 * (high * |BoundOnce(a, b)|)
  {
    OpeningsAreBounded(lt, a, b);
    HeightTimes(Higher(a, b), high, |BoundOnce(a, b)|);
  }

  lemma HeightTimes(low: nat, high: nat, keys: nat)
    requires low <= high
    ensures low * keys <= high * keys
  {
  }
}
