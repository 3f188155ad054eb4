/**
 * The distance that ranks name suggestions: computed one row at a time, equal to
 * the recursive Levenshtein distance, which is the least number of one-character
 * edits between two words and a metric.
 */
module EditDistance {

  function Min(a: nat, b: nat): nat {
    if a <= b then a else b
  }

  function Cost(a: char, b: char): nat {
    if a == b then 0 else 1
  }

  function Front(s: string): string
    requires s != []
  {
    s[..|s| - 1]
  }

  function Last(s: string): char
    requires s != []
  {
    s[|s| - 1]
  }

  /** Levenshtein distance by the last characters. */
  function Distance(a: string, b: string): nat
    decreases |a| + |b|
  {
    if a == [] then |b|
    else if b == [] then |a|
    else
      Min(Distance(Front(a), Front(b)) + Cost(Last(a), Last(b)),
          Min(Distance(Front(a), b) + 1, Distance(a, Front(b)) + 1))
  }

  /** The distances from one prefix of `left` to every prefix of `right`. */
  ghost predicate IsRow(row: seq<nat>, prefix: string, right: string, upto: nat)
    requires upto <= |right|
  {
    |row| == upto + 1 && forall j :: 0 <= j <= upto ==> row[j] == Distance(prefix, right[..j])
  }

  /** The entry that follows in a row from its neighbours to the left, above, and above left. */
  lemma NextEntry(left: string, right: string, row: nat, column: nat)
    requires row < |left| && column < |right|
    ensures Distance(left[..row + 1], right[..column + 1])
         == Min(Min(Distance(left[..row], right[..column]) + Cost(left[row], right[column]),
                    Distance(left[..row], right[..column + 1]) + 1),
                Distance(left[..row + 1], right[..column]) + 1)
  {
    assert Front(left[..row + 1]) == left[..row];
    assert Front(right[..column + 1]) == right[..column];
  }

  function Entry(substituted: nat, above: nat, before: nat): nat {
    Min(Min(substituted, above + 1), before + 1)
  }

  lemma RowGrows(left: string, right: string, row: nat, column: nat, previous: seq<nat>, current: seq<nat>)
    requires row < |left| && column < |right|
    requires IsRow(previous, left[..row], right, |right|) && IsRow(current, left[..row + 1], right, column)
    ensures IsRow(current + [Entry(previous[column] + Cost(left[row], right[column]), previous[column + 1], current[column])],
                  left[..row + 1], right, column + 1)
  {
    NextEntry(left, right, row, column);
    var entry := Entry(previous[column] + Cost(left[row], right[column]), previous[column + 1], current[column]);
    assert entry == Distance(left[..row + 1], right[..column + 1]);
    RowExtends(current, left[..row + 1], right, column, entry);
  }

  lemma RowExtends(row: seq<nat>, prefix: string, right: string, upto: nat, entry: nat)
    requires upto < |right| && IsRow(row, prefix, right, upto) && entry == Distance(prefix, right[..upto + 1])
    ensures IsRow(row + [entry], prefix, right, upto + 1)
  {
  }

  /** One row from the row above it. */
  method NextRow(left: string, right: string, row: nat, previous: seq<nat>) returns (current: seq<nat>)
    requires row < |left| && IsRow(previous, left[..row], right, |right|)
    ensures IsRow(current, left[..row + 1], right, |right|)
  {
    current := [row + 1];
    for column := 0 to |right|
      invariant IsRow(current, left[..row + 1], right, column)
    {
      RowGrows(left, right, row, column, previous, current);
      var substitution := previous[column] + Cost(left[row], right[column]);
      current := current + [Entry(substitution, previous[column + 1], current[column])];
    }
  }

  method EditDistance(left: string, right: string) returns (distance: nat)
    ensures distance == Distance(left, right)
  {
    var previous: seq<nat> := seq(|right| + 1, (j: nat) => j);
    for row := 0 to |left|
      invariant IsRow(previous, left[..row], right, |right|)
    {
      previous := NextRow(left, right, row, previous);
    }
    assert left[..|left|] == left && right[..|right|] == right;
    return previous[|right|];
  }

  // ---------- bounds ----------

  lemma {:induction false} AtMostBothLengths(a: string, b: string)
    ensures Distance(a, b) <= |a| + |b|
    decreases |a| + |b|
  {
    if a != [] && b != [] {
      AtMostBothLengths(Front(a), b);
    }
  }

  lemma {:induction false} AtLeastLengthGap(a: string, b: string)
    ensures |a| <= |b| + Distance(a, b) && |b| <= |a| + Distance(a, b)
    decreases |a| + |b|
  {
    if a != [] && b != [] {
      AtLeastLengthGap(Front(a), Front(b));
      AtLeastLengthGap(Front(a), b);
      AtLeastLengthGap(a, Front(b));
    }
  }

  // ---------- a metric ----------

  lemma {:induction false} ZeroOnlyOnEqual(a: string, b: string)
    ensures Distance(a, b) == 0 <==> a == b
    decreases |a|
  {
    if a != [] && b != [] {
      ZeroOnlyOnEqual(Front(a), Front(b));
      assert a == Front(a) + [Last(a)] && b == Front(b) + [Last(b)];
    }
  }

  lemma {:induction false} Symmetric(a: string, b: string)
    ensures Distance(a, b) == Distance(b, a)
    decreases |a| + |b|
  {
    if a != [] && b != [] {
      Symmetric(Front(a), Front(b));
      Symmetric(Front(a), b);
      Symmetric(a, Front(b));
    }
  }

  lemma {:induction false} Triangle(a: string, b: string, c: string)
    ensures Distance(a, c) <= Distance(a, b) + Distance(b, c)
    decreases |a| + |b| + |c|
  {
    if a == [] || c == [] {
      AtLeastLengthGap(if a == [] then b else a, if a == [] then c else b);
    } else if b == [] {
      AtMostBothLengths(a, c);
    } else if Distance(a, b) == Distance(Front(a), b) + 1 {
      Triangle(Front(a), b, c);
    } else if Distance(b, c) == Distance(b, Front(c)) + 1 {
      Triangle(a, b, Front(c));
    } else if Distance(a, b) == Distance(a, Front(b)) + 1 {
      Triangle(a, Front(b), c);
      Triangle(a, Front(b), Front(c));
    } else {
      Triangle(Front(a), Front(b), c);
      Triangle(Front(a), Front(b), Front(c));
    }
  }

  // ---------- the least number of edits ----------

  function Around(head: string, c: char, tail: string): string {
    head + [c] + tail
  }

  ghost predicate Inserts(s: string, t: string) {
    exists head, c, tail :: s == head + tail && t == Around(head, c, tail)
  }

  ghost predicate Replaces(s: string, t: string) {
    exists head, c, d, tail :: s == Around(head, c, tail) && t == Around(head, d, tail)
  }

  /** One character of `s` inserted, dropped or replaced gives `t`. */
  ghost predicate OneEdit(s: string, t: string) {
    Inserts(s, t) || Inserts(t, s) || Replaces(s, t)
  }

  /** Words each one edit from the next. */
  ghost predicate Edits(words: seq<string>) {
    |words| > 0 && forall i :: 0 < i < |words| ==> OneEdit(words[i - 1], words[i])
  }

  lemma SameLastAddsNothing(a: string, b: string, c: char)
    ensures Distance(a + [c], b + [c]) <= Distance(a, b)
  {
    assert Front(a + [c]) == a && Front(b + [c]) == b;
  }

  lemma {:induction false} SameTailAddsNothing(a: string, b: string, tail: string)
    ensures Distance(a + tail, b + tail) <= Distance(a, b)
    decreases |tail|
  {
    if tail == [] {
      assert a + tail == a && b + tail == b;
    } else {
      var rest, last := Front(tail), Last(tail);
      SameTailAddsNothing(a, b, rest);
      SameLastAddsNothing(a + rest, b + rest, last);
      TailLast(a, tail);
      TailLast(b, tail);
    }
  }

  lemma TailLast(a: string, tail: string)
    requires tail != []
    ensures a + tail == a + Front(tail) + [Last(tail)]
  {
  }

  lemma LastAddedIsNear(head: string, c: char)
    ensures Distance(head, head + [c]) <= 1
  {
    ZeroOnlyOnEqual(head, head);
    assert Front(head + [c]) == head;
  }

  lemma LastReplacedIsNear(head: string, c: char, d: char)
    ensures Distance(head + [c], head + [d]) <= 1
  {
    ZeroOnlyOnEqual(head, head);
    assert Front(head + [c]) == head && Front(head + [d]) == head;
  }

  lemma InsertionIsNear(s: string, t: string)
    requires Inserts(s, t)
    ensures Distance(s, t) <= 1
  {
    var head, c, tail :| s == head + tail && t == Around(head, c, tail);
    LastAddedIsNear(head, c);
    SameTailAddsNothing(head, head + [c], tail);
  }

  lemma ReplacementIsNear(s: string, t: string)
    requires Replaces(s, t)
    ensures Distance(s, t) <= 1
  {
    var head, c, d, tail :| s == Around(head, c, tail) && t == Around(head, d, tail);
    LastReplacedIsNear(head, c, d);
    SameTailAddsNothing(head + [c], head + [d], tail);
  }

  lemma EditIsNear(s: string, t: string)
    requires OneEdit(s, t)
    ensures Distance(s, t) <= 1
  {
    if Inserts(s, t) {
      InsertionIsNear(s, t);
    } else if Inserts(t, s) {
      InsertionIsNear(t, s);
      Symmetric(s, t);
    } else {
      ReplacementIsNear(s, t);
    }
  }

  /** No series of edits from one word to another is shorter than their distance. */
  lemma {:induction false} NoFewerEdits(words: seq<string>)
    requires Edits(words)
    ensures Distance(words[0], words[|words| - 1]) <= |words| - 1
    decreases |words|
  {
    if |words| == 1 {
      ZeroOnlyOnEqual(words[0], words[0]);
    } else {
      NoFewerEdits(words[..|words| - 1]);
      EditIsNear(words[|words| - 2], words[|words| - 1]);
      Triangle(words[0], words[|words| - 2], words[|words| - 1]);
    }
  }

  function WithTail(words: seq<string>, c: char): seq<string> {
    seq(|words|, i requires 0 <= i < |words| => words[i] + [c])
  }

  lemma AroundUnderTail(head: string, c: char, tail: string, x: char)
    ensures Around(head, c, tail) + [x] == Around(head, c, tail + [x])
  {
  }

  lemma InsertsUnderTail(s: string, t: string, x: char)
    requires Inserts(s, t)
    ensures Inserts(s + [x], t + [x])
  {
    var head, c, tail :| s == head + tail && t == Around(head, c, tail);
    AroundUnderTail(head, c, tail, x);
    assert s + [x] == head + (tail + [x]);
  }

  lemma ReplacesUnderTail(s: string, t: string, x: char)
    requires Replaces(s, t)
    ensures Replaces(s + [x], t + [x])
  {
    var head, c, d, tail :| s == Around(head, c, tail) && t == Around(head, d, tail);
    AroundUnderTail(head, c, tail, x);
    AroundUnderTail(head, d, tail, x);
  }

  lemma EditUnderTail(s: string, t: string, x: char)
    requires OneEdit(s, t)
    ensures OneEdit(s + [x], t + [x])
  {
    if Inserts(s, t) {
      InsertsUnderTail(s, t, x);
    } else if Inserts(t, s) {
      InsertsUnderTail(t, s, x);
    } else {
      ReplacesUnderTail(s, t, x);
    }
  }

  lemma EditsUnderTail(words: seq<string>, c: char)
    requires Edits(words)
    ensures Edits(WithTail(words, c))
  {
    var tailed := WithTail(words, c);
    forall i | 0 < i < |tailed| ensures OneEdit(tailed[i - 1], tailed[i]) {
      EditUnderTail(words[i - 1], words[i], c);
    }
  }

  /** `words` leads from `a` to `b` in `n` edits. */
  ghost predicate Leads(words: seq<string>, a: string, b: string, n: nat) {
    Edits(words) && |words| == n + 1 && words[0] == a && words[n] == b
  }

  lemma LeadsOn(words: seq<string>, a: string, b: string, n: nat, c: string)
    requires Leads(words, a, b, n) && OneEdit(b, c)
    ensures Leads(words + [c], a, c, n + 1)
  {
  }

  lemma LeadsFrom(words: seq<string>, a: string, b: string, n: nat, c: string)
    requires Leads(words, a, b, n) && OneEdit(c, a)
    ensures Leads([c] + words, c, b, n + 1)
  {
  }

  lemma LeadsUnderTail(words: seq<string>, a: string, b: string, n: nat, c: char)
    requires Leads(words, a, b, n)
    ensures Leads(WithTail(words, c), a + [c], b + [c], n)
  {
    EditsUnderTail(words, c);
  }

  lemma LastDropped(s: string)
    requires s != []
    ensures OneEdit(Front(s), s) && OneEdit(s, Front(s))
  {
    assert Front(s) == Front(s) + [] && s == Around(Front(s), Last(s), []);
  }

  lemma LastReplaced(head: string, c: char, d: char)
    ensures OneEdit(head + [c], head + [d])
  {
    assert head + [c] == Around(head, c, []) && head + [d] == Around(head, d, []);
  }

  /** Some series of exactly as many edits as the distance leads from one word to the other. */
  lemma {:induction false} ThatManyEdits(a: string, b: string) returns (words: seq<string>)
    ensures Leads(words, a, b, Distance(a, b))
    decreases |a| + |b|
  {
    if a == [] && b == [] {
      words := [a];
    } else if b != [] && Distance(a, b) == Distance(a, Front(b)) + 1 {
      words := ThatManyEdits(a, Front(b));
      LastDropped(b);
      LeadsOn(words, a, Front(b), Distance(a, Front(b)), b);
      words := words + [b];
    } else if a != [] && Distance(a, b) == Distance(Front(a), b) + 1 {
      words := ThatManyEdits(Front(a), b);
      LastDropped(a);
      LeadsFrom(words, Front(a), b, Distance(Front(a), b), a);
      words := [a] + words;
    } else {
      words := EditsOfFronts(a, b);
    }
  }

  lemma EditsOfFronts(a: string, b: string) returns (words: seq<string>)
    requires a != [] && b != [] && Distance(a, b) == Distance(Front(a), Front(b)) + Cost(Last(a), Last(b))
    ensures Leads(words, a, b, Distance(a, b))
    decreases |a| + |b|, 0
  {
    var n := Distance(Front(a), Front(b));
    words := ThatManyEdits(Front(a), Front(b));
    LeadsUnderTail(words, Front(a), Front(b), n, Last(a));
    words := WithTail(words, Last(a));
    assert a == Front(a) + [Last(a)] && b == Front(b) + [Last(b)];
    if Last(a) != Last(b) {
      LastReplaced(Front(b), Last(a), Last(b));
      LeadsOn(words, a, Front(b) + [Last(a)], n, b);
      words := words + [b];
    }
  }
}
