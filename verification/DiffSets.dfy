/** Counting what two sides of a walk hold alone and what only one of them has left, as plain sets. */
module DiffSets {
  import opened Sets

  /** What is in one of the sides and not shared. */
  ghost function Own<A>(shared: set<A>, a: set<A>, b: set<A>): set<A> {
    (a + b) - shared
  }

  /** What is in one side only. */
  ghost function OneSided<A>(a: set<A>, b: set<A>): set<A> {
    (a - b) + (b - a)
  }

  /** What is shared and in one side only. */
  ghost function Lag<A>(shared: set<A>, a: set<A>, b: set<A>): set<A> {
    OneSided(a, b) * shared
  }

  ghost function Cost<A>(shared: set<A>, a: set<A>, b: set<A>): nat {
    |Own(shared, a, b)| + |Lag(shared, a, b)|
  }

  lemma OneSidedThrough<A>(a: set<A>, b: set<A>, c: set<A>)
    ensures |OneSided(a, c)| <= |OneSided(a, b)| + |OneSided(b, c)|
  {
    NoMoreThan(OneSided(a, c), OneSided(a, b) + OneSided(b, c));
  }

  /** What is one-sided, counted by what is in the second side only and how many are in either. */
  lemma OneSidedCount<A>(a: set<A>, b: set<A>)
    ensures |OneSided(a, b)| + |b| == |a| + 2 * |b - a|
  {
    assert |a| == |a - b| + |a * b| by { assert a == (a - b) + a * b; }
    assert |b| == |b - a| + |a * b| by { assert b == (b - a) + a * b; }
  }

  lemma OneSidedAlike<A>(a: set<A>, b: set<A>)
    ensures OneSided(a, b) == OneSided(b, a)
  {
  }

  /** What one side alone loses is one-sided no more. */
  lemma OneSidedShrinks<A>(a: set<A>, b: set<A>, n: A)
    requires n in a && n !in b
    ensures |OneSided(a - {n}, b)| == |OneSided(a, b)| - 1
  {
    assert OneSided(a - {n}, b) == OneSided(a, b) - {n};
  }

  lemma OneSidedStays<A>(a: set<A>, b: set<A>, taken: set<A>)
    requires taken <= a && taken <= b
    ensures OneSided(a - taken, b - taken) == OneSided(a, b)
  {
  }

  lemma Alike<A>(shared: set<A>, a: set<A>, b: set<A>)
    ensures Own(shared, a, b) == Own(shared, b, a) && Cost(shared, a, b) == Cost(shared, b, a)
  {
    assert Lag(shared, a, b) == Lag(shared, b, a);
  }

  /** What one side alone loses costs one less. */
  lemma OwnShrinks<A>(shared: set<A>, a: set<A>, b: set<A>, n: A)
    requires n in a && n !in b && n !in shared
    ensures Cost(shared, a - {n}, b) == Cost(shared, a, b) - 1
    ensures |Own(shared, a - {n}, b)| == |Own(shared, a, b)| - 1
  {
    assert Own(shared, a - {n}, b) == Own(shared, a, b) - {n};
    assert Lag(shared, a - {n}, b) == Lag(shared, a, b);
  }

  /** What is shared and lost by one side first costs one more. */
  lemma LagGrows<A>(shared: set<A>, a: set<A>, b: set<A>, n: A)
    requires n in a && n in b && n in shared
    ensures Cost(shared, a - {n}, b) == Cost(shared, a, b) + 1
  {
    assert Own(shared, a - {n}, b) == Own(shared, a, b);
    forall m ensures m in Lag(shared, a - {n}, b) <==> m in Lag(shared, a, b) || m == n {
    }
    assert Lag(shared, a - {n}, b) == Lag(shared, a, b) + {n};
  }

  /** What is shared and already lost by the other side costs one less. */
  lemma LagShrinks<A>(shared: set<A>, a: set<A>, b: set<A>, n: A)
    requires n in a && n !in b && n in shared
    ensures Cost(shared, a - {n}, b) == Cost(shared, a, b) - 1
  {
    assert Own(shared, a - {n}, b) == Own(shared, a, b);
    assert Lag(shared, a - {n}, b) == Lag(shared, a, b) - {n};
  }

  lemma LagMoves<A>(shared: set<A>, a: set<A>, b: set<A>, n: A)
    requires n in a && n in shared
    ensures Cost(shared, a - {n}, b) <= Cost(shared, a, b) + 1
  {
    if n in b {
      LagGrows(shared, a, b, n);
    } else {
      LagShrinks(shared, a, b, n);
    }
  }

  /** Shared things lost by both sides at once leave what is alone as it was. */
  lemma SharedTaken<A>(shared: set<A>, a: set<A>, b: set<A>, taken: set<A>)
    requires taken <= shared
    ensures Own(shared, a - taken, b - taken) == Own(shared, a, b)
  {
  }

  lemma SharedCost<A>(shared: set<A>, a: set<A>, b: set<A>, taken: set<A>)
    requires taken <= shared && taken <= a && taken <= b
    ensures Cost(shared, a - taken, b - taken) == Cost(shared, a, b)
  {
    SharedTaken(shared, a, b, taken);
    assert Lag(shared, a - taken, b - taken) == Lag(shared, a, b);
  }

  // ---------- what is ahead of both sides ----------

  /** What is shared is in both sides or neither, and nothing else is in both. */
  ghost predicate Even<A>(shared: set<A>, a: set<A>, b: set<A>) {
    shared * a == shared * b && a * b <= shared
  }

  lemma EvenAlike<A>(shared: set<A>, a: set<A>, b: set<A>)
    requires Even(shared, a, b)
    ensures Even(shared, b, a)
  {
  }

  lemma EvenAt<A>(shared: set<A>, a: set<A>, b: set<A>, n: A)
    requires Even(shared, a, b)
    ensures n in shared && n in a ==> n in b
    ensures n in a && n in b ==> n in shared
  {
    assert n in shared * a <==> n in shared * b;
  }

  /** The same things taken from both sides are shared, and leave the sides even. */
  lemma BothTaken<A>(shared: set<A>, a: set<A>, b: set<A>, taken: set<A>)
    requires Even(shared, a, b) && taken <= a && taken <= b
    ensures taken <= shared && Even(shared, a - taken, b - taken)
  {
    assert shared * (a - taken) == shared * a - taken;
    assert shared * (b - taken) == shared * b - taken;
  }

  /** What is in one side alone leaves the sides even when it is taken. */
  lemma OneTaken<A>(shared: set<A>, a: set<A>, b: set<A>, n: A)
    requires Even(shared, a, b) && n in a && n !in b
    ensures n !in shared && Even(shared, a - {n}, b)
  {
    EvenAt(shared, a, b, n);
    assert shared * (a - {n}) == shared * a;
  }

  /** Sides that share just what is in both are even, and none has lost what the other has left. */
  lemma SplitByBoth<A>(a: set<A>, b: set<A>)
    ensures Even(a * b, a, b) && Own(a * b, a, b) == OneSided(a, b)
    ensures Cost(a * b, a, b) == |OneSided(a, b)|
  {
    assert Lag(a * b, a, b) == {};
  }
}
