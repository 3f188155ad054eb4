/** Counting what one set has beyond another. */
module Sets {

  /** No more than `n` of these are not among those. */
  ghost predicate NewNodes<A>(these: set<A>, those: set<A>, n: nat) {
    |these - those| <= n
  }

  lemma NoMoreThan<A>(part: set<A>, whole: set<A>)
    requires part <= whole
    ensures |part| <= |whole|
  {
    assert whole == part + (whole - part);
  }

  lemma NewThrough<A>(a: set<A>, b: set<A>, c: set<A>, m: nat, n: nat)
    requires NewNodes(a, b, m) && NewNodes(b, c, n)
    ensures NewNodes(a, c, m + n)
  {
    NoMoreThan(a - c, (a - b) + (b - c));
  }

  /** What a path copy makes: the nodes made on this level, and those made below it on either side. */
  lemma PathCopied<A>(result: set<A>, left: set<A>, right: set<A>, l: set<A>, n: A, r: set<A>, m: nat, k: nat)
    requires NewNodes(result, left + right, m)
    requires (NewNodes(left, l, k) && right == r) || (NewNodes(right, r, k) && left == l)
    ensures NewNodes(result, l + {n} + r, m + k)
  {
    if NewNodes(left, l, k) && right == r {
      NoMoreThan((left + right) - (l + {n} + r), left - l);
    } else {
      NoMoreThan((left + right) - (l + {n} + r), right - r);
    }
    NewThrough(result, left + right, l + {n} + r, m, k);
  }

  lemma OneMade<A>(l: set<A>, n: A, r: set<A>)
    ensures NewNodes(l + {n} + r, l + r, 1)
  {
    NoMoreThan((l + {n} + r) - (l + r), {n});
  }

  /** A single rotation: two nodes over three subtrees. */
  lemma TwoMade<A>(node: set<A>, inner: set<A>, a: set<A>, b: set<A>, c: set<A>, x: A, y: A, those: set<A>)
    requires a <= those && b <= those && c <= those
    requires (inner == a + {x} + b && node == inner + {y} + c) || (inner == b + {y} + c && node == a + {x} + inner)
    ensures NewNodes(node, those, 2)
  {
    NoMoreThan(node - those, {x, y});
  }

  /** A double rotation: three nodes over four subtrees. */
  lemma ThreeMade<A>(node: set<A>, left: set<A>, right: set<A>, a: set<A>, b: set<A>, c: set<A>, d: set<A>, x: A, y: A, z: A, those: set<A>)
    requires a <= those && b <= those && c <= those && d <= those
    requires left == a + {x} + b && right == c + {z} + d && node == left + {y} + right
    ensures NewNodes(node, those, 3)
  {
    NoMoreThan(node - those, {x, y, z});
  }
}
