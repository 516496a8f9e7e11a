/** What a sweep keeps track of: its compiles, which of them decided which mutation, and what was
    only complained about softly (`sweep` in `scripts/check_mutation_types.py`). */
module Ledger {
  import opened Batching
  import opened Bisection
  import Attribution

  /** What one compile says: whether it passed, the diagnostics that count, the ones that do not,
      and the lines printed. */
  datatype Answer = Answer(ok: bool, spots: seq<Attribution.Spot>, soft: seq<Attribution.Spot>, out: seq<string>)

  type Checker = (nat, seq<Item>) -> Answer
  type Blame = (seq<Item>, seq<Attribution.Spot>) -> set<nat>

  function Verdicts(checker: Checker): (nat, seq<Item>) -> bool {
    (n: nat, group: seq<Item>) => checker(n, group).ok
  }

  function Keys(items: multiset<Item>): set<Key> {
    set x | x in items :: x.key
  }

  lemma KeysOfBoth(early: multiset<Item>, late: multiset<Item>)
    ensures Keys(early + late) == Keys(early) + Keys(late)
  {
  }

  // ----- what was compiled -----

  /** Every compile from number `from` on was of some of `items`. */
  ghost predicate About(from: nat, log: seq<Asked>, items: seq<Item>) {
    forall k, x | from <= k < |log| && x in log[k].group :: x in items
  }

  lemma AboutTwice(from: nat, early: seq<Asked>, late: seq<Asked>, some: seq<Item>, others: seq<Item>, items: seq<Item>)
    requires About(from, early, some) && About(|early|, late, others) && early <= late
    requires (forall x | x in some :: x in items) && forall x | x in others :: x in items
    ensures About(from, late, items)
  {
    forall k, x | from <= k < |late| && x in late[k].group ensures x in items {
      if k < |early| { assert early[k] == late[k]; }
    }
  }

  // ----- deciding compiles -----

  /** How mutations are settled: cleared by a passing compile of them together, accused by a
      refused compile of one alone, or reported without any. */
  datatype Deed = Cleared(at: nat) | Accused(at: nat) | Unchecked(items: seq<Item>)

  /** The mutations that a deed settles. */
  function Doing(log: seq<Asked>, deed: Deed): seq<Item> {
    if deed.Unchecked? then deed.items else if deed.at < |log| then log[deed.at].group else []
  }

  function Sum(log: seq<Asked>, deeds: seq<Deed>): multiset<Item> {
    if deeds == [] then multiset{}
    else Sum(log, deeds[..|deeds| - 1]) + multiset(Doing(log, deeds[|deeds| - 1]))
  }

  ghost predicate Fits(from: nat, log: seq<Asked>, deed: Deed, verified: set<Key>, broken: set<Key>) {
    match deed
    case Cleared(at) => from <= at < |log| && log[at].ok && Keys(multiset(log[at].group)) <= verified
    case Accused(at) =>
      from <= at < |log| && !log[at].ok && |log[at].group| == 1 && Keys(multiset(log[at].group)) <= broken
    case Unchecked(items) => Keys(multiset(items)) <= broken
  }

  /** No compile decides twice. */
  ghost predicate InTurn(deeds: seq<Deed>) {
    forall j, k | 0 <= j < k < |deeds| && !deeds[j].Unchecked? && !deeds[k].Unchecked? :: deeds[j].at < deeds[k].at
  }

  ghost predicate Accounts(from: nat, log: seq<Asked>, deeds: seq<Deed>, done: multiset<Item>, verified: set<Key>,
                           broken: set<Key>)
  {
    && (forall k | 0 <= k < |deeds| :: Fits(from, log, deeds[k], verified, broken))
    && InTurn(deeds) && Sum(log, deeds) == done
  }

  /** Each of `done` was settled once: by one compile of its own or of its batch, no compile
      deciding twice, or by none. */
  ghost predicate Once(from: nat, log: seq<Asked>, done: multiset<Item>, verified: set<Key>, broken: set<Key>) {
    exists deeds :: Accounts(from, log, deeds, done, verified, broken)
  }

  lemma OnceNothing(from: nat, log: seq<Asked>, verified: set<Key>, broken: set<Key>)
    ensures Once(from, log, multiset{}, verified, broken)
  {
    assert Accounts(from, log, [], multiset{}, verified, broken);
  }

  lemma OnceBy(from: nat, log: seq<Asked>, deed: Deed, verified: set<Key>, broken: set<Key>)
    requires Fits(from, log, deed, verified, broken)
    ensures Once(from, log, multiset(Doing(log, deed)), verified, broken)
  {
    assert [deed][..0] == [];
    assert Accounts(from, log, [deed], multiset(Doing(log, deed)), verified, broken);
  }

  lemma {:induction false} SumLonger(early: seq<Asked>, late: seq<Asked>, from: nat, deeds: seq<Deed>,
                                     verified: set<Key>, broken: set<Key>)
    requires early <= late && forall k | 0 <= k < |deeds| :: Fits(from, early, deeds[k], verified, broken)
    ensures Sum(late, deeds) == Sum(early, deeds)
  {
    if deeds != [] {
      var n := |deeds| - 1;
      assert Fits(from, early, deeds[n], verified, broken);
      assert Doing(late, deeds[n]) == Doing(early, deeds[n]);
      SumLonger(early, late, from, deeds[..n], verified, broken);
    }
  }

  lemma {:induction false} SumBoth(log: seq<Asked>, some: seq<Deed>, others: seq<Deed>)
    ensures Sum(log, some + others) == Sum(log, some) + Sum(log, others)
  {
    hide *;
    if others == [] {
      assert some + others == some;
      SumNothing(log);
    } else {
      var n := |others| - 1;
      SumBoth(log, some, others[..n]);
      SumSplit(log, some, others[..n], others[n]);
      assert others == others[..n] + [others[n]];
    }
  }

  lemma SumNothing(log: seq<Asked>)
    ensures Sum(log, []) == multiset{}
  {
  }

  lemma SumSplit(log: seq<Asked>, some: seq<Deed>, init: seq<Deed>, deed: Deed)
    requires Sum(log, some + init) == Sum(log, some) + Sum(log, init)
    ensures Sum(log, some + (init + [deed])) == Sum(log, some) + Sum(log, init + [deed])
  {
    hide *;
    SumNext(log, some + init, deed);
    SumNext(log, init, deed);
    assert some + (init + [deed]) == some + init + [deed];
  }

  lemma SumNext(log: seq<Asked>, deeds: seq<Deed>, deed: Deed)
    ensures Sum(log, deeds + [deed]) == Sum(log, deeds) + multiset(Doing(log, deed))
  {
    hide Doing;
    assert (deeds + [deed])[..|deeds|] == deeds;
  }

  lemma FitsLonger(early: seq<Asked>, late: seq<Asked>, from: nat, deed: Deed, verified: set<Key>, broken: set<Key>,
                   verifiedNow: set<Key>, brokenNow: set<Key>)
    requires early <= late && Fits(from, early, deed, verified, broken) && verified <= verifiedNow
    requires broken <= brokenNow
    ensures Fits(from, late, deed, verifiedNow, brokenNow)
  {
    if !deed.Unchecked? { assert early[deed.at] == late[deed.at]; }
  }

  lemma OnceTwice(from: nat, early: seq<Asked>, late: seq<Asked>, some: multiset<Item>, others: multiset<Item>,
                  verified: set<Key>, broken: set<Key>, verifiedNow: set<Key>, brokenNow: set<Key>)
    requires from <= |early| && early <= late && verified <= verifiedNow && broken <= brokenNow
    requires Once(from, early, some, verified, broken) && Once(|early|, late, others, verifiedNow, brokenNow)
    ensures Once(from, late, some + others, verifiedNow, brokenNow)
  {
    var first :| Accounts(from, early, first, some, verified, broken);
    var second :| Accounts(|early|, late, second, others, verifiedNow, brokenNow);
    hide Fits;
    var both := first + second;
    SumLonger(early, late, from, first, verified, broken);
    SumBoth(late, first, second);
    forall k | 0 <= k < |both| ensures Fits(from, late, both[k], verifiedNow, brokenNow) {
      if k < |first| {
        FitsLonger(early, late, from, first[k], verified, broken, verifiedNow, brokenNow);
      } else {
        FitsFrom(from, |early|, late, second[k - |first|], verifiedNow, brokenNow);
      }
    }
    BothInTurn(from, early, late, first, second, verified, broken, verifiedNow, brokenNow);
    assert Accounts(from, late, both, some + others, verifiedNow, brokenNow);
  }

  lemma BothInTurn(from: nat, early: seq<Asked>, late: seq<Asked>, first: seq<Deed>, second: seq<Deed>,
                   verified: set<Key>, broken: set<Key>, verifiedNow: set<Key>, brokenNow: set<Key>)
    requires InTurn(first) && InTurn(second)
    requires forall k | 0 <= k < |first| :: Fits(from, early, first[k], verified, broken)
    requires forall k | 0 <= k < |second| :: Fits(|early|, late, second[k], verifiedNow, brokenNow)
    ensures InTurn(first + second)
  {
    var both := first + second;
    forall j, k | 0 <= j < k < |both| && !both[j].Unchecked? && !both[k].Unchecked? ensures both[j].at < both[k].at {
      if j < |first| <= k {
        assert Fits(from, early, first[j], verified, broken);
        assert Fits(|early|, late, second[k - |first|], verifiedNow, brokenNow);
      }
    }
  }

  lemma FitsFrom(from: nat, later: nat, log: seq<Asked>, deed: Deed, verified: set<Key>, broken: set<Key>)
    requires from <= later && Fits(later, log, deed, verified, broken)
    ensures Fits(from, log, deed, verified, broken)
  {
  }

  lemma OnceFrom(from: nat, later: nat, log: seq<Asked>, done: multiset<Item>, verified: set<Key>, broken: set<Key>)
    requires from <= later && Once(later, log, done, verified, broken)
    ensures Once(from, log, done, verified, broken)
  {
    var deeds :| Accounts(later, log, deeds, done, verified, broken);
    hide Fits;
    forall k | 0 <= k < |deeds| ensures Fits(from, log, deeds[k], verified, broken) {
      FitsFrom(from, later, log, deeds[k], verified, broken);
    }
    assert Accounts(from, log, deeds, done, verified, broken);
  }

  /** A mutation that was to be settled once has exactly one deed. */
  lemma {:induction false} OneDeed(log: seq<Asked>, deeds: seq<Deed>, x: Item) returns (k: nat)
    requires Sum(log, deeds)[x] == 1
    ensures k < |deeds| && x in Doing(log, deeds[k])
    ensures forall j | 0 <= j < |deeds| && j != k :: x !in Doing(log, deeds[j])
  {
    var n := |deeds| - 1;
    if x in Doing(log, deeds[n]) {
      k := n;
      NoDeed(log, deeds[..n], x);
      assert forall j | 0 <= j < n :: deeds[..n][j] == deeds[j];
    } else {
      assert x !in multiset(Doing(log, deeds[n]));
      k := OneDeed(log, deeds[..n], x);
      assert forall j | 0 <= j < n :: deeds[..n][j] == deeds[j];
    }
  }

  lemma {:induction false} NoDeed(log: seq<Asked>, deeds: seq<Deed>, x: Item)
    requires Sum(log, deeds)[x] == 0
    ensures forall j | 0 <= j < |deeds| :: x !in Doing(log, deeds[j])
  {
    if deeds != [] {
      var n := |deeds| - 1;
      hide Doing;
      assert x !in multiset(Doing(log, deeds[n]));
      NoDeed(log, deeds[..n], x);
      assert forall j | 0 <= j < n :: deeds[..n][j] == deeds[j];
    }
  }

  // ----- soft complaints -----

  /** The mutations that the diagnostics of one compile blame without counting. */
  function SoftOf(blame: Blame, group: seq<Item>, answer: Answer): set<Key> {
    if answer.soft == [] then {}
    else set i | i in blame(group, answer.soft) && i < |group| :: group[i].key
  }

  /** One of the diagnostics that do not count blames the mutation filed under `k`. */
  ghost predicate SoftlyBlamed(blame: Blame, group: seq<Item>, answer: Answer, k: Key) {
    answer.soft != [] && exists i :: i in blame(group, answer.soft) && i < |group| && group[i].key == k
  }

  lemma SoftOfIs(blame: Blame, group: seq<Item>, answer: Answer)
    ensures forall k :: k in SoftOf(blame, group, answer) <==> SoftlyBlamed(blame, group, answer, k)
  {
  }

  /** The same for compiles that begin with number `from`. */
  function SoftFrom(checker: Checker, blame: Blame, from: nat, log: seq<Asked>): set<Key> {
    if log == [] then {}
    else
      var n := |log| - 1;
      SoftFrom(checker, blame, from, log[..n]) + SoftOf(blame, log[n].group, checker(from + n, log[n].group))
  }

  /** The control compile does not count. */
  function Softly(checker: Checker, blame: Blame, log: seq<Asked>): set<Key> {
    if log == [] then {} else SoftFrom(checker, blame, 1, log[1..])
  }

  lemma SoftNext(checker: Checker, blame: Blame, from: nat, log: seq<Asked>, a: Asked)
    ensures SoftFrom(checker, blame, from, log + [a])
         == SoftFrom(checker, blame, from, log) + SoftOf(blame, a.group, checker(from + |log|, a.group))
  {
    hide SoftOf;
    assert (log + [a])[..|log|] == log;
  }

  lemma {:induction false} SoftBoth(checker: Checker, blame: Blame, from: nat, early: seq<Asked>, late: seq<Asked>)
    ensures SoftFrom(checker, blame, from, early + late)
         == SoftFrom(checker, blame, from, early) + SoftFrom(checker, blame, from + |early|, late)
  {
    hide *;
    if late == [] {
      assert early + late == early;
      SoftNothing(checker, blame, from + |early|);
    } else {
      var n := |late| - 1;
      SoftBoth(checker, blame, from, early, late[..n]);
      SoftSplit(checker, blame, from, early, late[..n], late[n]);
      assert late == late[..n] + [late[n]];
    }
  }

  lemma SoftNothing(checker: Checker, blame: Blame, from: nat)
    ensures SoftFrom(checker, blame, from, []) == {}
  {
  }

  lemma SoftSplit(checker: Checker, blame: Blame, from: nat, early: seq<Asked>, init: seq<Asked>, a: Asked)
    requires SoftFrom(checker, blame, from, early + init)
      == SoftFrom(checker, blame, from, early) + SoftFrom(checker, blame, from + |early|, init)
    ensures SoftFrom(checker, blame, from, early + (init + [a]))
      == SoftFrom(checker, blame, from, early) + SoftFrom(checker, blame, from + |early|, init + [a])
  {
    hide *;
    SoftNext(checker, blame, from, early + init, a);
    SoftNext(checker, blame, from + |early|, init, a);
    assert early + (init + [a]) == early + init + [a];
    assert from + |early + init| == from + |early| + |init|;
  }

  lemma SoftlyMore(checker: Checker, blame: Blame, log: seq<Asked>, more: seq<Asked>)
    requires log != []
    ensures Softly(checker, blame, log + more) == Softly(checker, blame, log) + SoftFrom(checker, blame, |log|, more)
  {
    assert (log + more)[1..] == log[1..] + more;
    SoftBoth(checker, blame, 1, log[1..], more);
  }

  lemma SoftlyOne(checker: Checker, blame: Blame, log: seq<Asked>, group: seq<Item>, ok: bool)
    requires log != []
    ensures Softly(checker, blame, log + [Asked(group, ok)])
         == Softly(checker, blame, log) + SoftOf(blame, group, checker(|log|, group))
  {
    SoftlyMore(checker, blame, log, [Asked(group, ok)]);
    assert [Asked(group, ok)][..0] == [];
  }

  lemma {:induction false} SoftFromIs(checker: Checker, blame: Blame, from: nat, log: seq<Asked>, k: Key)
    ensures k in SoftFrom(checker, blame, from, log) <==>
      exists n :: 0 <= n < |log| && SoftlyBlamed(blame, log[n].group, checker(from + n, log[n].group), k)
  {
    hide SoftOf, SoftlyBlamed;
    if log != [] {
      var n := |log| - 1;
      SoftFromIs(checker, blame, from, log[..n], k);
      SoftOfIs(blame, log[n].group, checker(from + n, log[n].group));
      assert forall m | 0 <= m < n :: log[..n][m] == log[m];
    }
  }

  /** Softly blamed is what some compile but the control blames so. */
  lemma SoftlyIs(checker: Checker, blame: Blame, log: seq<Asked>, k: Key)
    ensures k in Softly(checker, blame, log) <==>
      exists n :: 1 <= n < |log| && SoftlyBlamed(blame, log[n].group, checker(n, log[n].group), k)
  {
    hide SoftlyBlamed;
    if log != [] {
      var rest := log[1..];
      SoftFromIs(checker, blame, 1, rest, k);
      if n :| 0 <= n < |rest| && SoftlyBlamed(blame, rest[n].group, checker(1 + n, rest[n].group), k) {
        assert log[n + 1] == rest[n];
      }
      if n :| 1 <= n < |log| && SoftlyBlamed(blame, log[n].group, checker(n, log[n].group), k) {
        assert rest[n - 1] == log[n] && 1 + (n - 1) == n;
      }
    }
  }
}
