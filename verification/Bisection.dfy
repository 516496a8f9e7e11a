/** Halving a batch that does not compile (`bisect` in `scripts/check_mutation_types.py`).

    The compiler is an oracle that is asked about a group of mutations.  Its answer may depend
    on how many questions came before, so nothing below assumes that it repeats itself unless
    `Single` is among the hypotheses. */
module Bisection {
  import opened Batching

  /** The answer to question number `n`, about `group`: does the tree still compile? */
  type Oracle = (nat, seq<Item>) -> bool

  /** One question that was asked, and the answer. */
  datatype Asked = Asked(group: seq<Item>, ok: bool)

  /** The questions `log` were asked in this order, beginning with number `from`. */
  ghost predicate Faithful(ask: Oracle, from: nat, log: seq<Asked>) {
    forall k | 0 <= k < |log| :: log[k].ok == ask(from + k, log[k].group)
  }

  /** The indices named, and the questions it took. */
  function Bisect(ask: Oracle, from: nat, group: seq<Item>): (r: (set<nat>, seq<Asked>))
    requires group != []
    ensures forall i | i in r.0 :: i < |group|
    decreases |group|, 0
  {
    if |group| == 1 then ({0}, [])
    else
      var half := |group| / 2;
      var left := Probe(ask, from, group[..half]);
      var right := Probe(ask, from + |left.1|, group[half..]);
      (left.0 + (set i | i in right.0 :: half + i), left.1 + right.1)
  }

  /** One half: ask about it, and look into it when the answer is no. */
  function Probe(ask: Oracle, from: nat, part: seq<Item>): (r: (set<nat>, seq<Asked>))
    requires part != []
    ensures forall i | i in r.0 :: i < |part|
    decreases |part|, 1
  {
    if ask(from, part) then ({}, [Asked(part, true)])
    else
      var inner := Bisect(ask, from + 1, part);
      (inner.0, [Asked(part, false)] + inner.1)
  }

  lemma {:induction false} BisectIsFaithful(ask: Oracle, from: nat, group: seq<Item>)
    requires group != []
    ensures Faithful(ask, from, Bisect(ask, from, group).1)
    decreases |group|, 0
  {
    if |group| > 1 {
      var half := |group| / 2;
      var left := Probe(ask, from, group[..half]);
      ProbeIsFaithful(ask, from, group[..half]);
      ProbeIsFaithful(ask, from + |left.1|, group[half..]);
    }
  }

  lemma {:induction false} ProbeIsFaithful(ask: Oracle, from: nat, part: seq<Item>)
    requires part != []
    ensures Faithful(ask, from, Probe(ask, from, part).1)
    decreases |part|, 1
  {
    if !ask(from, part) {
      BisectIsFaithful(ask, from + 1, part);
    }
  }

  /** The questions concern parts of the group. */
  lemma {:induction false} BisectAsksAboutParts(ask: Oracle, from: nat, group: seq<Item>)
    requires group != []
    ensures forall c, x | c in Bisect(ask, from, group).1 && x in c.group :: x in group
    decreases |group|
  {
    if |group| > 1 {
      var half := |group| / 2;
      var left := Probe(ask, from, group[..half]);
      if !ask(from, group[..half]) { BisectAsksAboutParts(ask, from + 1, group[..half]); }
      if !ask(from + |left.1|, group[half..]) { BisectAsksAboutParts(ask, from + |left.1| + 1, group[half..]); }
      assert forall x :: (x in group[..half] ==> x in group) && (x in group[half..] ==> x in group);
    }
  }

  /** Every index named by halving stands for an item that was asked about alone and refused.
      (A group of one is named without asking again: it has just been refused.) */
  lemma {:induction false} BisectNamesRejected(ask: Oracle, from: nat, group: seq<Item>, i: nat)
    requires |group| > 1 && i in Bisect(ask, from, group).0
    ensures Asked([group[i]], false) in Bisect(ask, from, group).1
    decreases |group|, 0
  {
    var half := |group| / 2;
    var left := Probe(ask, from, group[..half]);
    if i in left.0 {
      ProbeNamesRejected(ask, from, group[..half], i);
    } else {
      ProbeNamesRejected(ask, from + |left.1|, group[half..], i - half);
    }
  }

  lemma {:induction false} ProbeNamesRejected(ask: Oracle, from: nat, part: seq<Item>, i: nat)
    requires part != [] && i in Probe(ask, from, part).0
    ensures Asked([part[i]], false) in Probe(ask, from, part).1
    decreases |part|, 1
  {
    if |part| == 1 {
      assert part == [part[i]];
    } else {
      BisectNamesRejected(ask, from + 1, part, i);
    }
  }

  // ----- when single mutations are to blame -----

  /** A group compiles exactly when each of its mutations does. */
  ghost predicate Single(ask: Oracle, good: Item -> bool) {
    forall n, group :: ask(n, group) <==> forall x | x in group :: good(x)
  }

  function Bad(group: seq<Item>, good: Item -> bool): nat {
    if group == [] then 0 else (if good(group[0]) then 0 else 1) + Bad(group[1..], good)
  }

  lemma BadSplits(group: seq<Item>, good: Item -> bool, half: nat)
    requires half <= |group|
    ensures Bad(group, good) == Bad(group[..half], good) + Bad(group[half..], good)
  {
    if half == 0 {
      assert group[0..] == group;
    } else {
      BadSplits(group[1..], good, half - 1);
      assert group[..half][1..] == group[1..][..half - 1];
      assert group[half..] == group[1..][half - 1..];
    }
  }

  lemma BadIsPositive(group: seq<Item>, good: Item -> bool)
    ensures Bad(group, good) == 0 <==> forall x | x in group :: good(x)
  {
    if group != [] {
      BadIsPositive(group[1..], good);
      assert forall x :: x in group <==> x == group[0] || x in group[1..];
    }
  }

  /** Halving finds exactly the bad mutations. */
  lemma {:induction false} BisectIsExact(ask: Oracle, from: nat, group: seq<Item>, good: Item -> bool)
    requires Single(ask, good) && group != [] && exists x :: x in group && !good(x)
    ensures forall i :: i in Bisect(ask, from, group).0 <==> 0 <= i < |group| && !good(group[i])
    decreases |group|, 0
  {
    if |group| > 1 {
      var half := |group| / 2;
      var left := Probe(ask, from, group[..half]);
      ProbeIsExact(ask, from, group[..half], good);
      ProbeIsExact(ask, from + |left.1|, group[half..], good);
      var right := Probe(ask, from + |left.1|, group[half..]).0;
      forall i ensures i in Bisect(ask, from, group).0 <==> 0 <= i < |group| && !good(group[i]) {
        if 0 <= i < half {
          assert group[..half][i] == group[i];
        } else if half <= i < |group| {
          assert group[half..][i - half] == group[i];
          assert i - half in right ==> half + (i - half) == i;
        }
      }
    }
  }

  lemma {:induction false} ProbeIsExact(ask: Oracle, from: nat, part: seq<Item>, good: Item -> bool)
    requires Single(ask, good) && part != []
    ensures forall i :: i in Probe(ask, from, part).0 <==> 0 <= i < |part| && !good(part[i])
    decreases |part|, 1
  {
    if !ask(from, part) {
      BisectIsExact(ask, from + 1, part, good);
    }
  }

  // ----- what it costs -----

  function CeilLog2(n: nat): nat
    requires n >= 1
  {
    if n == 1 then 0 else 1 + CeilLog2(n - n / 2)
  }

  /** It is the logarithm: the least exponent whose power of two is at least `n`. */
  lemma CeilLog2IsLog(n: nat)
    requires n >= 1
    ensures n <= Power2(CeilLog2(n)) && (n > 1 ==> Power2(CeilLog2(n) - 1) < n)
  {
    if n > 2 { CeilLog2IsLog(n - n / 2); }
  }

  function Power2(e: nat): nat {
    if e == 0 then 1 else 2 * Power2(e - 1)
  }

  lemma CeilLog2Grows(m: nat, n: nat)
    requires 1 <= m <= n
    ensures CeilLog2(m) <= CeilLog2(n)
  {
    if m > 1 { CeilLog2Grows(m - m / 2, n - n / 2); }
  }

  /** Two questions for every bad mutation on every level. */
  function Budget(bad: nat, levels: nat): nat {
    2 * bad * levels
  }

  lemma BisectHalves(ask: Oracle, from: nat, group: seq<Item>)
    requires |group| > 1
    ensures var half := |group| / 2;
      var left := Probe(ask, from, group[..half]);
      |Bisect(ask, from, group).1| == |left.1| + |Probe(ask, from + |left.1|, group[half..]).1|
  {
    hide Probe;
  }

  /** `b` bad mutations among `n` take at most `2 * b * ceil(log2 n)` questions. */
  lemma {:induction false} BisectCost(ask: Oracle, from: nat, group: seq<Item>, good: Item -> bool)
    requires Single(ask, good) && group != [] && Bad(group, good) >= 1
    ensures |Bisect(ask, from, group).1| <= Budget(Bad(group, good), CeilLog2(|group|))
    decreases |group|, 0
  {
    hide Budget, Bad;
    if |group| > 1 {
      var half, n := |group| / 2, |group|;
      var left := Probe(ask, from, group[..half]);
      var d := CeilLog2(n - half);
      BadSplits(group, good, half);
      BisectHalves(ask, from, group);
      CeilLog2Grows(half, n - half);
      hide Bisect, Probe, Single;
      ProbeCost(ask, from, group[..half], good, d);
      ProbeCost(ask, from + |left.1|, group[half..], good, d);
      TwoHalves(Bad(group[..half], good), Bad(group[half..], good), d);
    }
  }

  lemma TwoHalves(b: nat, c: nat, d: nat)
    requires b + c >= 1
    ensures (1 + Budget(b, d)) + (1 + Budget(c, d)) <= Budget(b + c, d + 1)
  {
    assert 2 * b * d + 2 * c * d == 2 * (b + c) * d;
    assert 2 * (b + c) * (d + 1) == 2 * (b + c) * d + 2 * (b + c);
  }

  lemma Deeper(b: nat, c: nat, d: nat)
    requires c <= d
    ensures Budget(b, c) <= Budget(b, d)
  {
    assert 2 * b * d == 2 * b * c + 2 * b * (d - c);
  }

  lemma {:induction false} ProbeCost(ask: Oracle, from: nat, part: seq<Item>, good: Item -> bool, depth: nat)
    requires Single(ask, good) && part != [] && CeilLog2(|part|) <= depth
    ensures |Probe(ask, from, part).1| <= 1 + Budget(Bad(part, good), depth)
    decreases |part|, 1
  {
    hide Budget, Bad;
    BadIsPositive(part, good);
    if !ask(from, part) {
      BisectCost(ask, from + 1, part, good);
      Deeper(Bad(part, good), CeilLog2(|part|), depth);
    }
  }
}
