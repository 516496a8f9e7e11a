/** Classifying every mutation as verified or broken with few compiles (`sweep`, with its
    nested `check` and `singly`, in `scripts/check_mutation_types.py`).

    The compiler is an oracle over groups of mutations, free to change its mind from one
    question to the next; `blame` stands for `attribute` and may name any mutations at all.
    What follows about `Single` adds the hypothesis that a group compiles exactly when each of
    its mutations does. */
module Sweeping {
  import opened Batching
  import opened Bisection
  import opened Ledger
  import Attribution
  import Cfg

  /** Why a key is in `broken`. */
  datatype Reason =
    | Diagnosed(spot: Attribution.Spot)
    | Quoted(line: string)
    | NoDiagnostic
    | Unattributed
    | NotConverged
    | NothingSettled
  {
    /** The mutation itself is said to be at fault. */
    predicate Accuses() {
      Diagnosed? || Quoted? || NoDiagnostic?
    }
  }

  datatype Note =
    | ControlFailed(fault: Reason)
    | Bisected(size: nat, named: nat)
    | Nameless(size: nat)
    | GaveUp(unchecked: nat)
    | Stuck(unchecked: nat)
  {
    /** The note is a refusal: it starts with `[FAIL]`. */
    predicate Fails() {
      !Bisected?
    }
  }

  /** The variables that the nested functions share, and the compiles made so far. */
  datatype Books = Books(verified: set<Key>, broken: map<Key, Reason>, interacting: set<Key>, softly: set<Key>,
                         log: seq<Asked>)
  {
    function Settled(): set<Key> {
      verified + broken.Keys
    }

    /** A passing compile contained `x`. */
    ghost predicate Passed(x: Item) {
      exists c :: c in log && c.ok && x in c.group
    }
  }

  /** The books after the control compile. */
  function NoneSettled(log: seq<Asked>): Books {
    Books({}, map[], {}, {}, log)
  }

  /** No two of the items are filed under one key. */
  ghost predicate DistinctKeys(items: multiset<Item>) {
    forall x, y | x in items && y in items && x.key == y.key :: x == y && items[x] == 1
  }

  // ----- what a stretch of the sweep does to the books -----

  /** Between `b` and `c` exactly the items `done` were settled, each of them once. */
  ghost predicate Moves(b: Books, c: Books, done: multiset<Item>, checker: Checker) {
    Settles(b, c, done, checker) && Once(|b.log|, c.log, done, c.verified, c.broken.Keys)
  }

  ghost predicate Settles(b: Books, c: Books, done: multiset<Item>, checker: Checker) {
    && b.log <= c.log && Faithful(Verdicts(checker), 0, c.log)
    && b.verified <= c.verified && b.broken.Keys <= c.broken.Keys
    && c.Settled() == b.Settled() + Keys(done)
    && (forall k | k in c.verified :: k in b.verified || exists x :: x in done && x.key == k && c.Passed(x))
    && c.interacting - b.interacting <= c.verified && Backed(b, c, done, checker)
    && (DistinctKeys(done) && Keys(done) !! b.Settled() && b.verified !! b.broken.Keys ==> c.verified !! c.broken.Keys)
  }

  /** The mutation was refused by itself, and the reason is what that compile said. */
  ghost predicate Refuted(checker: Checker, log: seq<Asked>, x: Item, reason: Reason) {
    exists n: nat :: n < |log| && log[n] == Asked([x], false) && Explains(checker(n, [x]), reason)
  }

  lemma RefutedLater(checker: Checker, log: seq<Asked>, longer: seq<Asked>, x: Item, reason: Reason)
    requires log <= longer && Refuted(checker, log, x, reason)
    ensures Refuted(checker, longer, x, reason)
  {
    hide Explains;
    var n: nat :| n < |log| && log[n] == Asked([x], false) && Explains(checker(n, [x]), reason);
    assert longer[n] == log[n];
  }

  ghost predicate AccusedFor(checker: Checker, log: seq<Asked>, done: multiset<Item>, k: Key, reason: Reason) {
    exists x :: x in done && x.key == k && Refuted(checker, log, x, reason)
  }

  ghost predicate PassedAlone(log: seq<Asked>, done: multiset<Item>, k: Key) {
    exists x :: x in done && x.key == k && Asked([x], true) in log
  }

  /** Whatever is newly accused was refused by itself, for the reason given, and whatever is newly
      noted as interacting has passed by itself. */
  ghost predicate Backed(b: Books, c: Books, done: multiset<Item>, checker: Checker) {
    && b.interacting <= c.interacting
    && (forall k | k in c.interacting :: k in b.interacting || PassedAlone(c.log, done, k))
    && forall k | k in c.broken && c.broken[k].Accuses() ::
      (k in b.broken && b.broken[k] == c.broken[k]) || AccusedFor(checker, c.log, done, k, c.broken[k])
  }

  lemma BackedTwice(b: Books, c: Books, d: Books, early: multiset<Item>, late: multiset<Item>, checker: Checker)
    requires Backed(b, c, early, checker) && Backed(c, d, late, checker) && c.log <= d.log
    ensures Backed(b, d, early + late, checker)
  {
    hide AccusedFor, PassedAlone;
    forall k | k in d.interacting && k !in b.interacting ensures PassedAlone(d.log, early + late, k) {
      PassedAloneMore(c.log, d.log, early, late, k);
    }
    forall k | k in d.broken && d.broken[k].Accuses() && !(k in b.broken && b.broken[k] == d.broken[k])
      ensures AccusedFor(checker, d.log, early + late, k, d.broken[k])
    {
      AccusedMore(checker, c.log, d.log, early, late, k, d.broken[k]);
    }
  }

  lemma PassedAloneMore(log: seq<Asked>, longer: seq<Asked>, early: multiset<Item>, late: multiset<Item>, k: Key)
    requires log <= longer
    ensures PassedAlone(log, early, k) || PassedAlone(longer, late, k) ==> PassedAlone(longer, early + late, k)
  {
    if x :| x in early && x.key == k && Asked([x], true) in log { assert x in early + late; }
    if x :| x in late && x.key == k && Asked([x], true) in longer { assert x in early + late; }
  }

  lemma AccusedMore(checker: Checker, log: seq<Asked>, longer: seq<Asked>, early: multiset<Item>, late: multiset<Item>,
                    k: Key, reason: Reason)
    requires log <= longer
    ensures AccusedFor(checker, log, early, k, reason) || AccusedFor(checker, longer, late, k, reason) ==>
      AccusedFor(checker, longer, early + late, k, reason)
  {
    hide Refuted;
    if x :| x in early && x.key == k && Refuted(checker, log, x, reason) {
      RefutedLater(checker, log, longer, x, reason);
      assert x in early + late;
    }
    if x :| x in late && x.key == k && Refuted(checker, longer, x, reason) { assert x in early + late; }
  }

  /** Whatever is newly reported was accused. */
  ghost predicate Sparing(b: Books, c: Books) {
    forall k | k in c.broken && !c.broken[k].Accuses() :: k in b.broken && !b.broken[k].Accuses()
  }

  /** ... or else the run is refused. */
  ghost predicate Owned(b: Books, c: Books, remarks: seq<Note>) {
    Sparing(b, c) || exists n :: n in remarks && n.Fails()
  }

  lemma SparingTwice(b: Books, c: Books, d: Books)
    requires Sparing(b, c) && Sparing(c, d)
    ensures Sparing(b, d)
  {
  }

  lemma OwnedTwice(b: Books, c: Books, d: Books, said: seq<Note>, remarks: seq<Note>)
    requires Owned(b, c, said) && Owned(c, d, remarks) && said <= remarks
    ensures Owned(b, d, remarks)
  {
    if !(exists n :: n in remarks && n.Fails()) {
      assert forall n | n in said :: n in remarks;
      SparingTwice(b, c, d);
    }
  }

  lemma SameBroken(b: Books, c: Books, remarks: seq<Note>)
    requires b.broken == c.broken
    ensures Sparing(b, c) && Owned(b, c, remarks)
  {
  }

  lemma OwnedUp(b: Books, c: Books, note: Note, remarks: seq<Note>)
    requires note in remarks && note.Fails()
    ensures Owned(b, c, remarks)
  {
  }

  lemma AlsoOwned(b: Books, c: Books, remarks: seq<Note>)
    requires Sparing(b, c)
    ensures Owned(b, c, remarks)
  {
  }

  /** ... and each of them according to what it is. */
  ghost predicate Judges(b: Books, c: Books, done: multiset<Item>, good: Item -> bool) {
    && (forall k | k in c.verified :: k in b.verified || exists x :: x in done && x.key == k && good(x))
    && (forall k | k in c.broken :: k in b.broken || exists x :: x in done && x.key == k && !good(x))
  }

  /** What was verified was compiled by itself. */
  ghost predicate VerifiedAlone(b: Books, c: Books, done: multiset<Item>) {
    && b.log <= c.log && b.interacting <= c.interacting
    && forall k | k in c.verified && k !in b.verified ::
      k in c.interacting && exists x :: x in done && x.key == k && Asked([x], true) in c.log
  }

  lemma VerifiedAloneTwice(b: Books, c: Books, d: Books, early: multiset<Item>, late: multiset<Item>)
    requires VerifiedAlone(b, c, early) && VerifiedAlone(c, d, late)
    ensures VerifiedAlone(b, d, early + late)
  {
  }

  lemma DistinctSplits(early: multiset<Item>, late: multiset<Item>)
    requires DistinctKeys(early + late)
    ensures DistinctKeys(early) && DistinctKeys(late) && Keys(early) !! Keys(late)
  {
    var all := early + late;
    forall x | x in early || x in late ensures x in all && all[x] == early[x] + late[x] {
    }
  }

  lemma PassedTwice(b: Books, c: Books, d: Books, early: multiset<Item>, late: multiset<Item>, k: Key)
    requires c.log <= d.log && k in d.verified && k !in b.verified
    requires k in c.verified ==> exists x :: x in early && x.key == k && c.Passed(x)
    requires k !in c.verified ==> exists x :: x in late && x.key == k && d.Passed(x)
    ensures exists x :: x in early + late && x.key == k && d.Passed(x)
  {
    if k in c.verified {
      var x :| x in early && x.key == k && c.Passed(x);
      assert x in early + late && d.Passed(x);
    } else {
      var x :| x in late && x.key == k && d.Passed(x);
      assert x in early + late;
    }
  }

  lemma MovesThenMoves(b: Books, c: Books, d: Books, early: multiset<Item>, late: multiset<Item>, checker: Checker)
    requires Moves(b, c, early, checker) && Moves(c, d, late, checker)
    ensures Moves(b, d, early + late, checker)
  {
    hide Backed, Faithful, Keys, DistinctKeys, Books.Passed, Once;
    BackedTwice(b, c, d, early, late, checker);
    OnceTwice(|b.log|, c.log, d.log, early, late, c.verified, c.broken.Keys, d.verified, d.broken.Keys);
    KeysOfBoth(early, late);
    forall k | k in d.verified && k !in b.verified
      ensures exists x :: x in early + late && x.key == k && d.Passed(x)
    {
      PassedTwice(b, c, d, early, late, k);
    }
    if DistinctKeys(early + late) { DistinctSplits(early, late); }
  }

  lemma MovesIsFaithful(b: Books, c: Books, done: multiset<Item>, checker: Checker)
    requires Moves(b, c, done, checker)
    ensures b.log <= c.log && Faithful(Verdicts(checker), 0, c.log)
  {
  }

  /** Only `items` were compiled, and every soft complaint is in the books. */
  ghost predicate Kept(b: Books, c: Books, items: seq<Item>, checker: Checker, blame: Blame) {
    && b.log <= c.log && About(|b.log|, c.log, items)
    && (b.log != [] && b.softly == Softly(checker, blame, b.log) ==> c.softly == Softly(checker, blame, c.log))
  }

  lemma KeptNothing(b: Books, c: Books, items: seq<Item>, checker: Checker, blame: Blame)
    requires b.log == c.log && b.softly == c.softly
    ensures Kept(b, c, items, checker, blame)
  {
  }

  lemma KeptTwice(b: Books, c: Books, d: Books, some: seq<Item>, others: seq<Item>, items: seq<Item>, checker: Checker,
                  blame: Blame)
    requires Kept(b, c, some, checker, blame) && Kept(c, d, others, checker, blame)
    requires (forall x | x in some :: x in items) && forall x | x in others :: x in items
    ensures Kept(b, d, items, checker, blame)
  {
    hide Softly, About;
    AboutTwice(|b.log|, c.log, d.log, some, others, items);
  }

  lemma JudgesThenJudges(b: Books, c: Books, d: Books, early: multiset<Item>, late: multiset<Item>, good: Item -> bool)
    requires Judges(b, c, early, good) && Judges(c, d, late, good)
    ensures Judges(b, d, early + late, good)
  {
  }

  // ----- one mutation on its own -----

  /** `check`: one compile of the tree with the group applied. */
  method Check(checker: Checker, blame: Blame, group: seq<Item>, b: Books) returns (answer: Answer, c: Books)
    requires Faithful(Verdicts(checker), 0, b.log)
    ensures answer == checker(|b.log|, group) && answer.ok == Verdicts(checker)(|b.log|, group)
    ensures c == b.(log := b.log + [Asked(group, answer.ok)], softly := c.softly)
    ensures forall k :: k in c.softly <==> k in b.softly || SoftlyBlamed(blame, group, answer, k)
    ensures Faithful(Verdicts(checker), 0, c.log) && Kept(b, c, group, checker, blame)
  {
    answer := checker(|b.log|, group);
    c := b.(log := b.log + [Asked(group, answer.ok)]);
    if answer.soft != [] {
      c := c.(softly := c.softly + set i | i in blame(group, answer.soft) && i < |group| :: group[i].key);
    }
    SoftOfIs(blame, group, answer);
    assert c.softly == b.softly + SoftOf(blame, group, answer);
    if b.log != [] { SoftlyOne(checker, blame, b.log, group, answer.ok); }
    assert c.log[|b.log|] == Asked(group, answer.ok);
  }

  predicate HoldsError(line: string) {
    "error" <= line || exists k | 0 <= k < |line| :: ": error" <= line[k..]
  }

  /** The first line that reads like an error, spaces trimmed. */
  function FirstError(out: seq<string>): Cfg.Option<string> {
    if out == [] then Cfg.None
    else if HoldsError(out[0]) then Cfg.Some(Cfg.Strip(out[0]))
    else FirstError(out[1..])
  }

  /** The first diagnostic that counts, or else the first line that reads like one. */
  function Fault(answer: Answer): Reason {
    if answer.spots != [] then Diagnosed(answer.spots[0])
    else if FirstError(answer.out).Some? then Quoted(FirstError(answer.out).value)
    else NoDiagnostic
  }

  /** The line begins with "error", or holds ": error". */
  ghost predicate ReadsLikeError(line: string) {
    || (|line| >= 5 && line[..5] == "error")
    || exists k :: ErrorAt(line, k)
  }

  ghost predicate ErrorAt(line: string, k: int) {
    0 <= k && k + 7 <= |line| && line[k..k + 7] == ": error"
  }

  /** Line `n` is the first that does. */
  ghost predicate FirstLikeError(out: seq<string>, n: nat) {
    n < |out| && ReadsLikeError(out[n]) && forall m | 0 <= m < n :: !ReadsLikeError(out[m])
  }

  /** The reason is the first diagnostic that counts; without any it is the first line that reads
      like an error, spaces trimmed; and without that there is none. */
  ghost predicate Explains(answer: Answer, reason: Reason) {
    if answer.spots != [] then reason == Diagnosed(answer.spots[0])
    else if exists n: nat :: FirstLikeError(answer.out, n) then
      exists n: nat :: FirstLikeError(answer.out, n) && reason == Quoted(Cfg.Strip(answer.out[n]))
    else reason == NoDiagnostic
  }

  lemma HoldsErrorIs(line: string)
    ensures HoldsError(line) <==> ReadsLikeError(line)
  {
    if k :| 0 <= k < |line| && ": error" <= line[k..] {
      assert line[k..k + 7] == line[k..][..7];
      assert ErrorAt(line, k);
    }
    if k :| ErrorAt(line, k) { assert line[k..][..7] == line[k..k + 7]; }
  }

  lemma {:induction false} FirstErrorIs(out: seq<string>)
    ensures FirstError(out).None? ==> forall n: nat :: !FirstLikeError(out, n)
    ensures FirstError(out).Some? ==>
      exists n: nat :: FirstLikeError(out, n) && FirstError(out).value == Cfg.Strip(out[n])
  {
    hide HoldsError, ReadsLikeError, Cfg.Strip;
    if out != [] {
      var rest := out[1..];
      HoldsErrorIs(out[0]);
      FirstErrorIs(rest);
      if HoldsError(out[0]) {
        assert FirstLikeError(out, 0);
      } else if FirstError(rest).Some? {
        var n: nat :| FirstLikeError(rest, n) && FirstError(rest).value == Cfg.Strip(rest[n]);
        FirstLikeErrorStep(out, n + 1);
      } else {
        forall n: nat ensures !FirstLikeError(out, n) {
          if n > 0 { FirstLikeErrorStep(out, n); }
        }
      }
    }
  }

  lemma FirstLikeErrorStep(out: seq<string>, n: nat)
    requires out != [] && !ReadsLikeError(out[0]) && n > 0
    ensures FirstLikeError(out, n) <==> FirstLikeError(out[1..], n - 1)
  {
    hide ReadsLikeError;
    var rest := out[1..];
    assert forall m | 0 <= m < |rest| :: rest[m] == out[m + 1];
    if FirstLikeError(rest, n - 1) {
      forall m | 0 <= m < n ensures !ReadsLikeError(out[m]) {
        if m > 0 { assert rest[m - 1] == out[m]; }
      }
    }
  }

  lemma FaultExplains(answer: Answer)
    ensures Explains(answer, Fault(answer)) && Fault(answer).Accuses()
  {
    hide ReadsLikeError, Cfg.Strip;
    FirstErrorIs(answer.out);
  }

  /** `singly`: the item is settled by a compile of its own. */
  method Singly(checker: Checker, blame: Blame, item: Item, b: Books, ghost good: Item -> bool) returns (c: Books)
    requires Faithful(Verdicts(checker), 0, b.log)
    ensures Moves(b, c, multiset{item}, checker)
    ensures Single(Verdicts(checker), good) ==> Judges(b, c, multiset{item}, good)
    ensures VerifiedAlone(b, c, multiset{item}) && Kept(b, c, [item], checker, blame) && Sparing(b, c)
    ensures var answer := checker(|b.log|, [item]);
      && c.log == b.log + [Asked([item], answer.ok)]
      && c.verified == b.verified + (if answer.ok then {item.key} else {})
      && c.interacting == b.interacting + (if answer.ok then {item.key} else {})
      && if answer.ok then c.broken == b.broken else
        && item.key in c.broken && c.broken == b.broken[item.key := c.broken[item.key]]
        && Explains(answer, c.broken[item.key])
  {
    hide Fault, SoftlyBlamed, Once, Kept, Explains;
    var answer;
    answer, c := Check(checker, blame, [item], b);
    ghost var checked := c;
    if answer.ok {
      c := c.(verified := c.verified + {item.key}, interacting := c.interacting + {item.key});
    } else {
      c := c.(broken := c.broken[item.key := Fault(answer)]);
      FaultExplains(answer);
    }
    KeptStill(b, checked, c, [item], checker, blame);
    OneSettled(b, c, item, answer, checker, good);
  }

  lemma KeptStill(b: Books, c: Books, d: Books, items: seq<Item>, checker: Checker, blame: Blame)
    requires Kept(b, c, items, checker, blame) && c.log == d.log && c.softly == d.softly
    ensures Kept(b, d, items, checker, blame)
  {
  }

  lemma OneSettled(b: Books, c: Books, item: Item, answer: Answer, checker: Checker, good: Item -> bool)
    requires answer == checker(|b.log|, [item])
    requires c.log == b.log + [Asked([item], answer.ok)] && Faithful(Verdicts(checker), 0, c.log)
    requires c.verified == b.verified + (if answer.ok then {item.key} else {})
    requires c.interacting == b.interacting + (if answer.ok then {item.key} else {})
    requires if answer.ok then c.broken == b.broken else
      c.broken.Keys == b.broken.Keys + {item.key} && Explains(answer, c.broken[item.key])
    requires forall k | k in b.broken && (answer.ok || k != item.key) :: c.broken[k] == b.broken[k]
    ensures Moves(b, c, multiset{item}, checker)
    ensures Single(Verdicts(checker), good) ==> Judges(b, c, multiset{item}, good)
    ensures VerifiedAlone(b, c, multiset{item})
  {
    hide Once, Explains, AccusedFor, PassedAlone;
    OneOnce(b, c, item, answer.ok);
    OneBacked(b, c, item, answer, checker);
    hide Backed;
    assert c.log[|b.log|] == Asked([item], answer.ok);
    assert Verdicts(checker)(|b.log|, [item]) == answer.ok;
    assert item in multiset{item} && Keys(multiset{item}) == {item.key};
    assert answer.ok ==> c.Passed(item);
  }

  lemma OneBacked(b: Books, c: Books, item: Item, answer: Answer, checker: Checker)
    requires answer == checker(|b.log|, [item]) && c.log == b.log + [Asked([item], answer.ok)]
    requires c.interacting == b.interacting + (if answer.ok then {item.key} else {})
    requires if answer.ok then c.broken == b.broken else
      c.broken.Keys == b.broken.Keys + {item.key} && Explains(answer, c.broken[item.key])
    requires forall k | k in b.broken && (answer.ok || k != item.key) :: c.broken[k] == b.broken[k]
    ensures Backed(b, c, multiset{item}, checker)
  {
    hide Explains;
    assert c.log[|b.log|] == Asked([item], answer.ok) && item in multiset{item};
    if !answer.ok {
      assert Refuted(checker, c.log, item, c.broken[item.key]);
      assert AccusedFor(checker, c.log, multiset{item}, item.key, c.broken[item.key]);
    } else {
      assert PassedAlone(c.log, multiset{item}, item.key);
    }
  }

  lemma OneOnce(b: Books, c: Books, item: Item, ok: bool)
    requires c.log == b.log + [Asked([item], ok)]
    requires if ok then item.key in c.verified else item.key in c.broken
    ensures Once(|b.log|, c.log, multiset{item}, c.verified, c.broken.Keys)
  {
    hide Once;
    var deed := if ok then Cleared(|b.log|) else Accused(|b.log|);
    assert c.log[|b.log|] == Asked([item], ok);
    assert multiset([item]) == multiset{item} && Keys(multiset{item}) == {item.key};
    OnceBy(|b.log|, c.log, deed, c.verified, c.broken.Keys);
  }

  // ----- one batch -----

  /** The items of the group that `suspects` does not name, in order. */
  function Others(group: seq<Item>, suspects: set<nat>): seq<Item> {
    if group == [] then []
    else
      var n := |group| - 1;
      Others(group[..n], suspects) + (if n in suspects then [] else [group[n]])
  }

  function Named(group: seq<Item>, suspects: set<nat>): seq<Item> {
    if group == [] then []
    else
      var n := |group| - 1;
      Named(group[..n], suspects) + (if n in suspects then [group[n]] else [])
  }

  /** The groups compiled, in order. */
  function Compiled(log: seq<Asked>): (groups: seq<seq<Item>>)
    ensures |groups| == |log| && forall k | 0 <= k < |log| :: groups[k] == log[k].group
  {
    seq(|log|, k requires 0 <= k < |log| => log[k].group)
  }

  function Singles(items: seq<Item>): (groups: seq<seq<Item>>)
    ensures |groups| == |items| && forall k | 0 <= k < |items| :: groups[k] == [items[k]]
  {
    seq(|items|, k requires 0 <= k < |items| => [items[k]])
  }

  lemma CompiledMore(log: seq<Asked>, a: Asked)
    ensures Compiled(log + [a]) == Compiled(log) + [a.group]
  {
  }

  lemma SinglesMore(items: seq<Item>, x: Item)
    ensures Singles(items + [x]) == Singles(items) + [[x]]
  {
  }

  lemma NobodyNamed(suspects: set<nat>)
    ensures Named([], suspects) == [] && Others([], suspects) == []
  {
  }

  lemma OneMore(items: seq<Item>, x: Item)
    ensures multiset(items + [x]) == multiset(items) + multiset{x}
  {
  }

  lemma SplitStep(group: seq<Item>, suspects: set<nat>)
    requires group != []
    ensures var n := |group| - 1;
      if n in suspects then
        && Named(group, suspects) == Named(group[..n], suspects) + [group[n]]
        && Others(group, suspects) == Others(group[..n], suspects)
      else
        && Named(group, suspects) == Named(group[..n], suspects)
        && Others(group, suspects) == Others(group[..n], suspects) + [group[n]]
  {
  }

  lemma NamedAndOthers(group: seq<Item>, suspects: set<nat>)
    ensures multiset(group) == multiset(Named(group, suspects)) + multiset(Others(group, suspects))
  {
    hide Named, Others;
    if group == [] {
      NobodyNamed(suspects);
    } else {
      var n := |group| - 1;
      NamedAndOthers(group[..n], suspects);
      OneMore(group[..n], group[n]);
      assert group == group[..n] + [group[n]];
      OneMore(if n in suspects then Named(group[..n], suspects) else Others(group[..n], suspects), group[n]);
      SplitStep(group, suspects);
    }
  }

  lemma NamedNext(group: seq<Item>, suspects: set<nat>, index: nat)
    requires index < |group|
    ensures index !in suspects ==> Named(group[..index + 1], suspects) == Named(group[..index], suspects)
    ensures index in suspects ==>
      Named(group[..index + 1], suspects) == Named(group[..index], suspects) + [group[index]]
    ensures index in suspects ==>
      multiset(Named(group[..index + 1], suspects))
      == multiset(Named(group[..index], suspects)) + multiset{group[index]}
  {
    assert group[..index + 1][..index] == group[..index];
  }

  lemma NamedNone(group: seq<Item>, suspects: set<nat>)
    ensures Named(group[..0], suspects) == [] && multiset(Named(group[..0], suspects)) == multiset{}
  {
  }

  lemma SomeNamed(group: seq<Item>, suspects: set<nat>, i: nat)
    requires i in suspects && i < |group|
    ensures Named(group, suspects) != []
  {
    var n := |group| - 1;
    if i < n { SomeNamed(group[..n], suspects, i); }
  }

  lemma NothingMoves(b: Books, c: Books, checker: Checker)
    requires b.log <= c.log && Faithful(Verdicts(checker), 0, c.log)
    requires b.verified == c.verified && b.broken == c.broken && b.interacting == c.interacting
    ensures Moves(b, c, multiset{}, checker)
    ensures forall good :: Judges(b, c, multiset{}, good)
    ensures VerifiedAlone(b, c, multiset{})
  {
    hide Once;
    OnceNothing(|b.log|, c.log, c.verified, c.broken.Keys);
  }

  /** None of the suspects is good. */
  ghost predicate Guilty(group: seq<Item>, suspects: set<nat>, good: Item -> bool) {
    forall i | i in suspects && i < |group| :: !good(group[i])
  }

  lemma GuiltyFails(checker: Checker, good: Item -> bool, n: nat, group: seq<Item>, suspects: set<nat>, i: nat)
    requires Single(Verdicts(checker), good) && Guilty(group, suspects, good) && i in suspects && i < |group|
    ensures !checker(n, [group[i]]).ok
  {
    assert Verdicts(checker)(n, [group[i]]) == checker(n, [group[i]]).ok;
    assert group[i] in [group[i]];
  }

  /** `for index in sorted(suspects): singly(group[index])`. */
  method EachSingly(checker: Checker, blame: Blame, group: seq<Item>, suspects: set<nat>, b: Books,
                    ghost good: Item -> bool)
    returns (c: Books)
    requires Faithful(Verdicts(checker), 0, b.log)
    ensures Moves(b, c, multiset(Named(group, suspects)), checker)
    ensures Single(Verdicts(checker), good) ==> Judges(b, c, multiset(Named(group, suspects)), good)
    ensures VerifiedAlone(b, c, multiset(Named(group, suspects))) && Kept(b, c, group, checker, blame) && Sparing(b, c)
    ensures Compiled(c.log) == Compiled(b.log) + Singles(Named(group, suspects))
    ensures Single(Verdicts(checker), good) && Guilty(group, suspects, good) ==> c.interacting == b.interacting
  {
    hide *;
    c := b;
    ghost var guilty := Single(Verdicts(checker), good) && Guilty(group, suspects, good);
    NothingMoves(b, c, checker);
    KeptNothing(b, c, group, checker, blame);
    SameBroken(b, c, []);
    NamedNone(group, suspects);
    for index := 0 to |group|
      invariant Moves(b, c, multiset(Named(group[..index], suspects)), checker)
      invariant Single(Verdicts(checker), good) ==> Judges(b, c, multiset(Named(group[..index], suspects)), good)
      invariant VerifiedAlone(b, c, multiset(Named(group[..index], suspects))) && Kept(b, c, group, checker, blame)
      invariant Sparing(b, c)
      invariant Compiled(c.log) == Compiled(b.log) + Singles(Named(group[..index], suspects))
      invariant guilty ==> c.interacting == b.interacting
    {
      NamedNext(group, suspects, index);
      if index in suspects {
        ghost var before, early := c, multiset(Named(group[..index], suspects));
        MovesIsFaithful(b, c, early, checker);
        CompiledMore(c.log, Asked([group[index]], checker(|c.log|, [group[index]]).ok));
        SinglesMore(Named(group[..index], suspects), group[index]);
        if guilty { GuiltyFails(checker, good, |c.log|, group, suspects, index); }
        c := Singly(checker, blame, group[index], c, good);
        KeptTwice(b, before, c, group, [group[index]], group, checker, blame);
        MovesThenMoves(b, before, c, early, multiset{group[index]}, checker);
        VerifiedAloneTwice(b, before, c, early, multiset{group[index]});
        SparingTwice(b, before, c);
        if Single(Verdicts(checker), good) { JudgesThenJudges(b, before, c, early, multiset{group[index]}, good); }
      }
    }
    assert group[..|group|] == group;
  }

  /** `broken.setdefault(item.key, reason)` for every item. */
  function WithDefault(broken: map<Key, Reason>, items: seq<Item>, reason: Reason): (r: map<Key, Reason>)
    ensures r.Keys == broken.Keys + Keys(multiset(items))
    ensures forall k | k in broken :: r[k] == broken[k]
    ensures forall k | k in r && k !in broken :: r[k] == reason
  {
    (map k | k in Keys(multiset(items)) :: reason) + broken
  }

  /** What one turn over a batch may add to the notes. */
  ghost predicate Remarks(before: seq<Note>, after: seq<Note>, quiet: bool) {
    && before <= after
    && forall k | |before| <= k < |after| :: after[k].Bisected? || (!quiet && after[k].Nameless?)
  }

  lemma BatchOnce(b: Books, c: Books, group: seq<Item>)
    requires c.log == b.log + [Asked(group, true)] && Keys(multiset(group)) <= c.verified
    ensures Once(|b.log|, c.log, multiset(group), c.verified, c.broken.Keys)
  {
    hide Once, Keys;
    assert c.log[|b.log|] == Asked(group, true);
    OnceBy(|b.log|, c.log, Cleared(|b.log|), c.verified, c.broken.Keys);
  }

  lemma NobodyOnce(b: Books, c: Books, items: seq<Item>)
    requires Keys(multiset(items)) <= c.broken.Keys
    ensures Once(|b.log|, c.log, multiset(items), c.verified, c.broken.Keys)
  {
    hide Once, Keys;
    OnceBy(|b.log|, c.log, Unchecked(items), c.verified, c.broken.Keys);
  }

  lemma AllVerified(b: Books, c: Books, group: seq<Item>, checker: Checker, good: Item -> bool)
    requires Faithful(Verdicts(checker), 0, c.log) && c.log == b.log + [Asked(group, true)]
    requires c.verified == b.verified + Keys(multiset(group)) && c.broken == b.broken && c.interacting == b.interacting
    ensures Moves(b, c, multiset(group), checker)
    ensures Single(Verdicts(checker), good) ==> Judges(b, c, multiset(group), good)
  {
    hide Once;
    assert c.log[|b.log|] == Asked(group, true);
    BatchOnce(b, c, group);
    assert Verdicts(checker)(|b.log|, group);
    forall x | x in multiset(group) ensures c.Passed(x) {
      assert Asked(group, true) in c.log && x in group;
    }
  }

  lemma AllDefaulted(b: Books, c: Books, items: seq<Item>, reason: Reason, checker: Checker)
    requires b.log <= c.log && Faithful(Verdicts(checker), 0, c.log)
    requires c.verified == b.verified && c.interacting == b.interacting
    requires c.broken == WithDefault(b.broken, items, reason)
    requires !reason.Accuses()
    ensures Moves(b, c, multiset(items), checker)
  {
    hide Once;
    NobodyOnce(b, c, items);
  }

  lemma FaithfulAppend(ask: (nat, seq<Item>) -> bool, log: seq<Asked>, more: seq<Asked>)
    requires Faithful(ask, 0, log) && Faithful(ask, |log|, more)
    ensures Faithful(ask, 0, log + more)
  {
  }

  /** Somebody in a refused group is to blame. */
  lemma RefusedHasBad(ask: (nat, seq<Item>) -> bool, n: nat, group: seq<Item>, good: Item -> bool)
    requires Single(ask, good) && !ask(n, group)
    ensures exists x :: x in group && !good(x)
  {
  }

  lemma LongerLog(b: Books, c: Books, d: Books, done: multiset<Item>, checker: Checker, good: Item -> bool)
    requires b.log <= c.log && b.(log := [], softly := {}) == c.(log := [], softly := {}) && Moves(c, d, done, checker)
    ensures Moves(b, d, done, checker) && (Judges(c, d, done, good) ==> Judges(b, d, done, good))
  {
    hide Once;
    OnceFrom(|b.log|, |c.log|, d.log, done, d.verified, d.broken.Keys);
  }

  /** Which mutations of a refused batch to look at: the ones blamed, or else the ones that
      halving finds. */
  method Suspects(checker: Checker, blame: Blame, group: seq<Item>, spots: seq<Attribution.Spot>, b: Books,
                  notes: seq<Note>, ghost good: Item -> bool)
    returns (suspects: set<nat>, c: Books, remarks: seq<Note>)
    requires group != [] && Faithful(Verdicts(checker), 0, b.log)
    requires forall g, spots, i | i in blame(g, spots) :: i < |g|
    ensures forall i | i in suspects :: i < |group|
    ensures c == b.(log := c.log, softly := c.softly)
    ensures Faithful(Verdicts(checker), 0, c.log) && Kept(b, c, group, checker, blame)
    ensures blame(group, spots) != {} ==> suspects == blame(group, spots) && c == b && remarks == notes
    ensures blame(group, spots) == {} ==>
      var found := Bisect(Verdicts(checker), |b.log|, group);
      && suspects == found.0 && c.log == b.log + found.1
      && remarks == notes + [Bisected(|group|, |suspects|)]
    ensures Single(Verdicts(checker), good) && (exists x :: x in group && !good(x)) ==> suspects != {}
  {
    hide Bisect, Softly, SoftFrom;
    suspects, c, remarks := blame(group, spots), b, notes;
    if suspects == {} {
      var found := Bisect(Verdicts(checker), |b.log|, group);
      BisectIsFaithful(Verdicts(checker), |b.log|, group);
      BisectAsksAboutParts(Verdicts(checker), |b.log|, group);
      FaithfulAppend(Verdicts(checker), b.log, found.1);
      suspects := found.0;
      c := b.(log := b.log + found.1, softly := b.softly + SoftFrom(checker, blame, |b.log|, found.1));
      if b.log != [] { SoftlyMore(checker, blame, b.log, found.1); }
      remarks := notes + [Bisected(|group|, |suspects|)];
      if Single(Verdicts(checker), good) && exists x :: x in group && !good(x) {
        BisectIsExact(Verdicts(checker), |b.log|, group, good);
        var i :| 0 <= i < |group| && !good(group[i]);
        assert i in suspects;
      }
    }
  }

  /** When single mutations are to blame and all of these are good, nothing is left and nothing
      is said. */
  ghost predicate Untroubled(checker: Checker, good: Item -> bool, items: seq<Item>, notes: seq<Note>,
                             remarks: seq<Note>, left: seq<Item>) {
    Single(Verdicts(checker), good) && (forall x | x in items :: good(x)) ==> left == [] && remarks == notes
  }

  lemma UntroubledAtFirst(checker: Checker, good: Item -> bool, items: seq<Item>, notes: seq<Note>)
    ensures Untroubled(checker, good, items, notes, notes, [])
  {
  }

  lemma StillUntroubled(checker: Checker, good: Item -> bool, items: seq<Item>, group: seq<Item>, notes: seq<Note>,
                        said: seq<Note>, remarks: seq<Note>, still: seq<Item>, left: seq<Item>)
    requires Untroubled(checker, good, items, notes, said, still)
    requires Untroubled(checker, good, group, said, remarks, left)
    requires forall x | x in group :: x in items
    ensures Untroubled(checker, good, items, notes, remarks, still + left)
  {
    hide Single;
  }

  // ----- when the diagnostics are exact -----

  /** Single mutations are to blame, and the diagnostics of a refused group name exactly those. */
  ghost predicate Exact(checker: Checker, blame: Blame, good: Item -> bool) {
    && Single(Verdicts(checker), good)
    && forall n, group :: !checker(n, group).ok ==> NamesBad(blame(group, checker(n, group).spots), group, good)
  }

  ghost predicate NamesBad(named: set<nat>, group: seq<Item>, good: Item -> bool) {
    forall i: nat :: i in named <==> i < |group| && !good(group[i])
  }

  lemma ExactIs(checker: Checker, blame: Blame, good: Item -> bool, n: nat, group: seq<Item>)
    requires Exact(checker, blame, good)
    ensures Single(Verdicts(checker), good)
    ensures var answer := checker(n, group);
      var named := blame(group, answer.spots);
      !answer.ok ==> named != {} && NamesBad(named, group, good) && Guilty(group, named, good)
  {
    var answer := checker(n, group);
    if !answer.ok {
      assert !Verdicts(checker)(n, group);
      RefusedHasBad(Verdicts(checker), n, group, good);
      var i :| 0 <= i < |group| && !good(group[i]);
      assert i in blame(group, answer.spots);
    }
  }

  /** Whatever goes back is good, nobody is noted as interacting, and nothing is said. */
  ghost predicate Spares(b: Books, c: Books, notes: seq<Note>, remarks: seq<Note>, left: seq<Item>, good: Item -> bool)
  {
    (forall x | x in left :: good(x)) && c.interacting == b.interacting && remarks == notes
  }

  lemma SparesNobody(b: Books, c: Books, notes: seq<Note>, good: Item -> bool)
    requires c.interacting == b.interacting
    ensures Spares(b, c, notes, notes, [], good)
  {
  }

  lemma SparesOthers(b: Books, c: Books, group: seq<Item>, named: set<nat>, notes: seq<Note>, good: Item -> bool)
    requires c.interacting == b.interacting && NamesBad(named, group, good)
    ensures Spares(b, c, notes, notes, Others(group, named), good)
  {
    OthersAre(group, named);
  }

  lemma SparesMore(b: Books, c: Books, d: Books, notes: seq<Note>, said: seq<Note>, remarks: seq<Note>,
                   still: seq<Item>, left: seq<Item>, good: Item -> bool)
    requires Spares(b, c, notes, said, still, good) && Spares(c, d, said, remarks, left, good)
    ensures Spares(b, d, notes, remarks, still + left, good)
  {
  }

  /** One turn of the inner loop: the batch is compiled and, when it fails, taken apart. */
  method SettleBatch(checker: Checker, blame: Blame, group: seq<Item>, b: Books, notes: seq<Note>,
                     ghost good: Item -> bool)
    returns (c: Books, remarks: seq<Note>, left: seq<Item>)
    requires group != [] && Faithful(Verdicts(checker), 0, b.log)
    requires forall g, spots, i | i in blame(g, spots) :: i < |g|
    ensures LeftOf(left, group)
    ensures Led(b, c, multiset(group) - multiset(left), notes, remarks, checker, good)
    ensures Untroubled(checker, good, group, notes, remarks, left) && Kept(b, c, group, checker, blame)
    ensures b.log < c.log && c.log[|b.log|] == Asked(group, checker(|b.log|, group).ok)
    ensures Exact(checker, blame, good) ==> Spares(b, c, notes, remarks, left, good)
    ensures var answer := checker(|b.log|, group);
      var named := blame(group, answer.spots);
      if answer.ok then left == [] && remarks == notes && c.log == b.log + [Asked(group, true)]
      else if named != {} then
        && left == Others(group, named) && remarks == notes
        && Compiled(c.log) == Compiled(b.log) + [group] + Singles(Named(group, named))
      else
        var found := Bisect(Verdicts(checker), |b.log| + 1, group).0;
        left == if found == {} then [] else Others(group, found)
  {
    hide Moves, Judges, Faithful, Single, DistinctKeys, Keys, Named, Others, Kept, Bisect, SoftlyBlamed, Owned, Sparing,
         Compiled, Singles, Exact, Spares, Guilty, NamesBad, LeftOf;
    NothingLeft(group);
    CompiledMore(b.log, Asked(group, checker(|b.log|, group).ok));
    if Exact(checker, blame, good) { ExactIs(checker, blame, good, |b.log|, group); }
    remarks, left := notes, [];
    var answer;
    answer, c := Check(checker, blame, group, b);
    ghost var checked := c;
    if answer.ok {
      c := c.(verified := c.verified + Keys(multiset(group)));
      KeptStill(b, checked, c, group, checker, blame);
      AllVerified(b, c, group, checker, good);
      SameBroken(b, c, remarks);
      SparesNobody(b, c, notes, good);
      return;
    }
    var suspects;
    suspects, c, remarks := Suspects(checker, blame, group, answer.spots, c, notes, good);
    ghost var looked := c;
    KeptTwice(b, checked, looked, group, group, group, checker, blame);
    if Single(Verdicts(checker), good) { RefusedHasBad(Verdicts(checker), |b.log|, group, good); }
    if suspects == {} {
      remarks := remarks + [Nameless(|group|)];
      c := c.(broken := WithDefault(c.broken, group, Unattributed));
      KeptStill(b, looked, c, group, checker, blame);
      AllDefaulted(b, c, group, Unattributed, checker);
      OwnedUp(b, c, Nameless(|group|), remarks);
      return;
    }
    c := EachSingly(checker, blame, group, suspects, c, good);
    left := Others(group, suspects);
    KeptTwice(b, looked, c, group, group, group, checker, blame);
    MovesIsFaithful(looked, c, multiset(Named(group, suspects)), checker);
    LongerLog(b, looked, c, multiset(Named(group, suspects)), checker, good);
    SameBroken(b, looked, remarks);
    SparingTwice(b, looked, c);
    AlsoOwned(b, c, remarks);
    SomeLeave(group, suspects);
    if Exact(checker, blame, good) { SparesOthers(b, c, group, suspects, notes, good); }
  }

  /** Some of the group go back, in their order, and not all. */
  ghost predicate LeftOf(left: seq<Item>, group: seq<Item>) {
    multiset(left) <= multiset(group) && |left| < |group| && Subsequence(left, group)
  }

  lemma NothingLeft(group: seq<Item>)
    requires group != []
    ensures LeftOf([], group) && multiset(group) - multiset([]) == multiset(group)
  {
    EmptyInOrder(group);
  }

  lemma LeftOfIs(left: seq<Item>, group: seq<Item>)
    requires LeftOf(left, group)
    ensures multiset(left) <= multiset(group) && |left| < |group| && Subsequence(left, group)
  {
  }

  lemma EmptyInOrder(whole: seq<Item>)
    ensures Subsequence([], whole)
  {
  }

  lemma FlatNext(groups: seq<seq<Item>>, g: nat)
    requires g < |groups|
    ensures Flat(groups[..g + 1]) == Flat(groups[..g]) + groups[g]
  {
    assert groups[..g + 1][..g] == groups[..g];
  }

  lemma {:induction false} OthersInOrder(group: seq<Item>, suspects: set<nat>)
    ensures Subsequence(Others(group, suspects), group)
  {
    if group != [] {
      var n := |group| - 1;
      var before := Others(group[..n], suspects);
      OthersInOrder(group[..n], suspects);
      if n !in suspects {
        assert (before + [group[n]])[..|before|] == before;
      } else {
        assert before + [] == before;
      }
    }
  }

  lemma SomeLeave(group: seq<Item>, suspects: set<nat>)
    requires suspects != {} && forall i | i in suspects :: i < |group|
    ensures LeftOf(Others(group, suspects), group)
    ensures multiset(group) - multiset(Others(group, suspects)) == multiset(Named(group, suspects))
  {
    OthersInOrder(group, suspects);
    NamedAndOthers(group, suspects);
    var i :| i in suspects;
    SomeNamed(group, suspects, i);
    assert |multiset(group)| == |multiset(Named(group, suspects))| + |multiset(Others(group, suspects))|;
  }

  // ----- one round -----

  lemma AllNext(groups: seq<seq<Item>>, g: nat)
    requires g < |groups|
    ensures All(groups[g..]) == multiset(groups[g]) + All(groups[g + 1..])
  {
    assert groups[g..][1..] == groups[g + 1..];
  }

  lemma PackedFrom(pending: seq<Item>, g: nat)
    requires g < |Packed(pending)|
    ensures forall x | x in Packed(pending)[g] :: x in pending
  {
    PackedIsPartition(pending);
    forall x | x in Packed(pending)[g] ensures x in pending {
      AllHolds(Packed(pending), g, x);
      assert x in multiset(pending);
    }
  }

  lemma AllNone(groups: seq<seq<Item>>)
    ensures All(groups[|groups|..]) == multiset{}
  {
  }

  /** The book-keeping of one more batch. */
  lemma Rebalance(pending: multiset<Item>, settled: multiset<Item>, still: multiset<Item>, group: multiset<Item>,
                  rest: multiset<Item>, left: multiset<Item>)
    requires pending == settled + still + (group + rest) && left <= group
    ensures pending == (settled + (group - left)) + (still + left) + rest
  {
  }

  lemma RemarksTwice(a: seq<Note>, b: seq<Note>, c: seq<Note>, quiet: bool)
    requires Remarks(a, b, quiet) && Remarks(b, c, quiet)
    ensures Remarks(a, c, quiet)
  {
  }

  /** From one state of the sweep to a later one: what was settled and what was said. */
  ghost predicate Led(b: Books, c: Books, done: multiset<Item>, notes: seq<Note>, remarks: seq<Note>, checker: Checker,
                      good: Item -> bool)
  {
    && Moves(b, c, done, checker)
    && (Single(Verdicts(checker), good) ==> Judges(b, c, done, good))
    && Remarks(notes, remarks, Single(Verdicts(checker), good)) && Owned(b, c, remarks)
  }

  lemma LedNowhere(b: Books, notes: seq<Note>, checker: Checker, good: Item -> bool)
    requires Faithful(Verdicts(checker), 0, b.log)
    ensures Led(b, b, multiset{}, notes, notes, checker, good)
  {
    hide Moves, Judges, Single, Faithful, Owned;
    NothingMoves(b, b, checker);
    SameBroken(b, b, notes);
  }

  lemma LedIs(b: Books, c: Books, done: multiset<Item>, notes: seq<Note>, remarks: seq<Note>, checker: Checker,
              good: Item -> bool)
    requires Led(b, c, done, notes, remarks, checker, good)
    ensures b.log <= c.log && Faithful(Verdicts(checker), 0, c.log)
    ensures Moves(b, c, done, checker) && (Single(Verdicts(checker), good) ==> Judges(b, c, done, good))
    ensures Remarks(notes, remarks, Single(Verdicts(checker), good)) && Owned(b, c, remarks)
  {
    hide Judges, Single, Remarks, Owned;
  }

  lemma OwnedLater(b: Books, c: Books, d: Books, said: seq<Note>, remarks: seq<Note>, quiet: bool)
    requires Owned(b, c, said) && Owned(c, d, remarks) && Remarks(said, remarks, quiet)
    ensures Owned(b, d, remarks)
  {
    hide Owned;
    OwnedTwice(b, c, d, said, remarks);
  }

  lemma LedOn(b: Books, c: Books, d: Books, early: multiset<Item>, late: multiset<Item>, notes: seq<Note>,
              said: seq<Note>, remarks: seq<Note>, checker: Checker, good: Item -> bool)
    requires Led(b, c, early, notes, said, checker, good) && Led(c, d, late, said, remarks, checker, good)
    ensures Led(b, d, early + late, notes, remarks, checker, good)
  {
    hide Moves, Judges, Single, Remarks, Owned;
    MovesThenMoves(b, c, d, early, late, checker);
    OwnedLater(b, c, d, said, remarks, Single(Verdicts(checker), good));
    if Single(Verdicts(checker), good) { JudgesThenJudges(b, c, d, early, late, good); }
    RemarksTwice(notes, said, remarks, Single(Verdicts(checker), good));
  }

  /** One turn of the outer loop: every batch of what is pending. */
  method Round(checker: Checker, blame: Blame, pending: seq<Item>, b: Books, notes: seq<Note>, ghost good: Item -> bool)
    returns (c: Books, remarks: seq<Note>, still: seq<Item>)
    requires pending != [] && Faithful(Verdicts(checker), 0, b.log)
    requires forall g, spots, i | i in blame(g, spots) :: i < |g|
    ensures multiset(still) <= multiset(pending) && |still| < |pending|
    ensures Led(b, c, multiset(pending) - multiset(still), notes, remarks, checker, good)
    ensures Untroubled(checker, good, pending, notes, remarks, still) && Kept(b, c, pending, checker, blame)
    ensures b.log <= c.log
    ensures Smooth(b.log, c.log, Packed(pending), notes, remarks, still)
    ensures Exact(checker, blame, good) ==> Spares(b, c, notes, remarks, still, good)
    ensures Subsequence(still, Flat(Packed(pending)))
  {
    hide *;
    c, remarks, still := b, notes, [];
    EmptyInOrder(Flat(Packed(pending)[..0]));
    var groups := Batched(pending);
    LedNowhere(b, notes, checker, good);
    ghost var settled: multiset<Item> := multiset{};
    AccountedAtFirst(pending, groups);
    SmoothAtFirst(b.log, groups, notes);
    UntroubledAtFirst(checker, good, pending, notes);
    KeptNothing(b, c, pending, checker, blame);
    SparesNobody(b, c, notes, good);
    assert groups[0..] == groups;
    for g := 0 to |groups|
      invariant Exact(checker, blame, good) ==> Spares(b, c, notes, remarks, still, good)
      invariant Subsequence(still, Flat(groups[..g]))
      invariant Accounted(pending, settled, still, groups, g)
      invariant Led(b, c, settled, notes, remarks, checker, good)
      invariant Untroubled(checker, good, pending, notes, remarks, still)
      invariant b.log <= c.log && Kept(b, c, pending, checker, blame)
      invariant Smooth(b.log, c.log, groups[..g], notes, remarks, still)
    {
      ghost var before, said := c, remarks;
      LedIs(b, c, settled, notes, remarks, checker, good);
      PackedKeepsOrder(pending, g);
      PackedFrom(pending, g);
      var left;
      c, remarks, left := SettleBatch(checker, blame, groups[g], c, remarks, good);
      LeftOfIs(left, groups[g]);
      SmoothMore(b.log, before.log, c.log, groups, g, notes, said, remarks, still, left,
                 checker(|before.log|, groups[g]).ok);
      ghost var gone := multiset(groups[g]) - multiset(left);
      LedOn(b, before, c, settled, gone, notes, said, remarks, checker, good);
      StillUntroubled(checker, good, pending, groups[g], notes, said, remarks, still, left);
      AccountedNext(pending, settled, still, groups, g, left);
      KeptTwice(b, before, c, pending, groups[g], pending, checker, blame);
      if Exact(checker, blame, good) { SparesMore(b, before, c, notes, said, remarks, still, left, good); }
      SubsequenceBoth(still, left, Flat(groups[..g]), groups[g]);
      FlatNext(groups, g);
      still, settled := still + left, settled + gone;
    }
    AccountedAtLast(pending, settled, still, groups);
    assert groups[..|groups|] == groups;
  }

  /** Every pending item is settled, put back, or in a batch still to come; each batch turned has
      settled one at least. */
  ghost predicate Accounted(pending: seq<Item>, settled: multiset<Item>, still: seq<Item>, groups: seq<seq<Item>>,
                            g: nat)
  {
    && g <= |groups| && multiset(pending) == settled + multiset(still) + All(groups[g..])
    && |still| + |All(groups[g..])| + g <= |pending|
  }

  lemma AccountedAtFirst(pending: seq<Item>, groups: seq<seq<Item>>)
    requires groups == Packed(pending)
    ensures Accounted(pending, multiset{}, [], groups, 0)
  {
    PackedIsPartition(pending);
    assert groups[0..] == groups;
    assert |multiset(pending)| == |pending|;
  }

  lemma AccountedNext(pending: seq<Item>, settled: multiset<Item>, still: seq<Item>, groups: seq<seq<Item>>, g: nat,
                      left: seq<Item>)
    requires g < |groups| && Accounted(pending, settled, still, groups, g)
    requires multiset(left) <= multiset(groups[g]) && |left| < |groups[g]|
    ensures Accounted(pending, settled + (multiset(groups[g]) - multiset(left)), still + left, groups, g + 1)
  {
    AllNext(groups, g);
    Rebalance(multiset(pending), settled, multiset(still), multiset(groups[g]), All(groups[g + 1..]), multiset(left));
    assert |All(groups[g..])| == |groups[g]| + |All(groups[g + 1..])|;
  }

  lemma AccountedAtLast(pending: seq<Item>, settled: multiset<Item>, still: seq<Item>, groups: seq<seq<Item>>)
    requires pending != [] && groups == Packed(pending) && Accounted(pending, settled, still, groups, |groups|)
    ensures multiset(still) <= multiset(pending) && |still| < |pending|
    ensures settled == multiset(pending) - multiset(still)
  {
    AllNone(groups);
    BatchesExist(pending);
  }

  /** If no compile was refused, `groups` have been compiled in order and nothing is left or said. */
  ghost predicate Smooth(early: seq<Asked>, late: seq<Asked>, groups: seq<seq<Item>>, notes: seq<Note>,
                         remarks: seq<Note>, still: seq<Item>) {
    AllPass(late) ==> still == [] && remarks == notes && Compiled(late) == Compiled(early) + groups
  }

  lemma SmoothAtFirst(log: seq<Asked>, groups: seq<seq<Item>>, notes: seq<Note>)
    ensures Smooth(log, log, groups[..0], notes, notes, [])
  {
  }

  lemma SmoothMore(start: seq<Asked>, before: seq<Asked>, after: seq<Asked>, groups: seq<seq<Item>>, g: nat,
                   notes: seq<Note>, said: seq<Note>, remarks: seq<Note>, still: seq<Item>, left: seq<Item>, ok: bool)
    requires g < |groups| && Smooth(start, before, groups[..g], notes, said, still)
    requires before < after && after[|before|] == Asked(groups[g], ok)
    requires ok ==> left == [] && remarks == said && after == before + [Asked(groups[g], true)]
    ensures Smooth(start, after, groups[..g + 1], notes, remarks, still + left)
  {
    hide AllPass, Compiled;
    PassedSoFar(before, after);
    CompiledMore(before, Asked(groups[g], true));
    assert groups[..g + 1] == groups[..g] + [groups[g]];
  }

  /** No compile was refused. */
  ghost predicate AllPass(log: seq<Asked>) {
    forall k | 0 <= k < |log| :: log[k].ok
  }

  lemma Refused(log: seq<Asked>)
    ensures log != [] && !log[0].ok ==> !AllPass(log)
  {
  }

  lemma PassedSoFar(early: seq<Asked>, late: seq<Asked>)
    requires early <= late
    ensures AllPass(late) ==> AllPass(early)
    ensures AllPass(late) && early < late ==> late[|early|].ok
  {
    assert forall k | 0 <= k < |early| :: early[k] == late[k];
  }

  lemma BatchesExist(items: seq<Item>)
    requires items != []
    ensures |Packed(items)| >= 1
  {
    PlacedSize(Packed(items[..|items| - 1]), items[|items| - 1]);
  }

  // ----- the sweep -----

  const MAX_ROUNDS: nat := 60

  /** What a finished sweep promises with no assumption on the compiler: every item is settled
      once, by one compile of its own or of its batch or else by none; nothing is verified without
      a passing compile that contained it; what is reported was refused alone, or the run refuses;
      and the guard against a round that settles nothing never fires. */
  ghost predicate Complete(checker: Checker, items: seq<Item>, solo: set<Key>, b: Books, notes: seq<Note>) {
    && b.Settled() == Keys(multiset(items))
    && Once(1, b.log, multiset(items), b.verified, b.broken.Keys)
    && Supported(checker, items, solo, b)
    && (DistinctKeys(multiset(items)) ==> b.verified !! b.broken.Keys)
    && b.interacting <= b.verified
    && (forall n | n in notes :: n.Bisected? || n.Nameless? || n.GaveUp?)
    && ((forall k | k in b.broken :: b.broken[k].Accuses()) || exists n :: n in notes && n.Fails())
    && ((exists n :: n in notes && n.GaveUp?) ==> |items| > MAX_ROUNDS)
  }

  /** A passing compile stands behind every key verified, one of its own behind every key noted as
      interacting, and a refusal of its own behind every accusation. */
  ghost predicate Supported(checker: Checker, items: seq<Item>, solo: set<Key>, b: Books) {
    && (forall k | k in b.verified :: exists x :: x in items && x.key == k && b.Passed(x))
    && (forall k | k in b.verified && k in solo :: k in b.interacting)
    && (forall k | k in b.interacting :: exists x :: x in items && x.key == k && Asked([x], true) in b.log)
    && (forall k | k in b.broken && b.broken[k].Accuses() ::
      exists x :: x in items && x.key == k && Refuted(checker, b.log, x, b.broken[k]))
  }

  /** What it promises when single mutations are to blame: no bad one is verified, every bad one
      is reported, no failure goes unattributed, and unless the rounds run out nothing good is
      reported. */
  ghost predicate Right(items: seq<Item>, good: Item -> bool, b: Books, notes: seq<Note>) {
    && (forall k | k in b.verified :: exists x :: x in items && x.key == k && good(x))
    && (forall x | x in items && !good(x) :: x.key in b.broken)
    && (forall n | n in notes :: !n.Nameless?)
    && ((forall n | n in notes :: !n.GaveUp?) ==>
          forall k | k in b.broken :: exists x :: x in items && x.key == k && !good(x))
  }

  lemma OthersAre(group: seq<Item>, suspects: set<nat>)
    ensures forall x | x in Others(group, suspects) :: exists i :: 0 <= i < |group| && i !in suspects && group[i] == x
  {
    if group != [] {
      var n := |group| - 1;
      OthersAre(group[..n], suspects);
      forall x | x in Others(group, suspects) ensures exists i :: 0 <= i < |group| && i !in suspects && group[i] == x {
        if x in Others(group[..n], suspects) {
          var i :| 0 <= i < n && i !in suspects && group[..n][i] == x;
          assert group[i] == x;
        } else {
          assert group[n] == x;
        }
      }
    }
  }

  lemma AllBacked(items: seq<Item>, start: Books, b: Books, done: multiset<Item>, checker: Checker)
    requires Moves(start, b, done, checker) && start.verified == {} && start.broken == map[] && start.interacting == {}
    requires multiset(items) == done
    ensures b.Settled() == Keys(multiset(items)) && b.interacting <= b.verified
    ensures forall k | k in b.verified :: exists x :: x in items && x.key == k && b.Passed(x)
    ensures forall k | k in b.broken && b.broken[k].Accuses() ::
      exists x :: x in items && x.key == k && Refuted(checker, b.log, x, b.broken[k])
    ensures forall k | k in b.interacting :: exists x :: x in items && x.key == k && Asked([x], true) in b.log
    ensures DistinctKeys(multiset(items)) ==> b.verified !! b.broken.Keys
    ensures Once(|start.log|, b.log, multiset(items), b.verified, b.broken.Keys)
  {
    hide Faithful, Keys, DistinctKeys, Once;
    assert forall x :: x in items <==> x in multiset(items);
  }

  lemma SoloAlone(items: seq<Item>, solo: set<Key>, start: Books, first: Books, b: Books, early: multiset<Item>,
                  late: multiset<Item>, checker: Checker, k: Key)
    requires VerifiedAlone(start, first, early) && Moves(first, b, late, checker) && start.verified == {}
    requires multiset(items) == early + late && forall x | x in late :: x.key !in solo
    requires k in b.verified && k in solo
    ensures k in b.interacting && exists x :: x in items && x.key == k && Asked([x], true) in b.log
  {
    hide Faithful, Keys, DistinctKeys, Once;
    assert k in first.verified;
    var x :| x in early && x.key == k && Asked([x], true) in first.log;
    assert x in multiset(items) && x in items;
  }

  lemma AllOwned(log: seq<Asked>, first: Books, b: Books, notes: seq<Note>)
    requires Sparing(NoneSettled(log), first) && Owned(first, b, notes)
    ensures (forall k | k in b.broken :: b.broken[k].Accuses()) || exists n :: n in notes && n.Fails()
  {
    if Sparing(first, b) { SparingTwice(NoneSettled(log), first, b); }
  }

  /** The sweep is over when all items are settled: first the ones apart, then the rest. */
  lemma IsComplete(checker: Checker, items: seq<Item>, solo: set<Key>, first: Books, b: Books, early: multiset<Item>,
                   late: multiset<Item>, log: seq<Asked>, notes: seq<Note>)
    requires |log| == 1 && Moves(NoneSettled(log), first, early, checker) && Moves(first, b, late, checker)
    requires VerifiedAlone(NoneSettled(log), first, early)
    requires multiset(items) == early + late && forall x | x in late :: x.key !in solo
    requires forall n | n in notes :: n.Bisected? || n.Nameless? || (n.GaveUp? && |items| > MAX_ROUNDS)
    requires Sparing(NoneSettled(log), first) && Owned(first, b, notes)
    ensures Complete(checker, items, solo, b, notes)
  {
    hide Moves, VerifiedAlone, Keys, DistinctKeys, Once;
    var start := NoneSettled(log);
    AllOwned(log, first, b, notes);
    MovesThenMoves(start, first, b, early, late, checker);
    AllBacked(items, start, b, early + late, checker);
    forall k | k in b.verified && k in solo
      ensures k in b.interacting && exists x :: x in items && x.key == k && Asked([x], true) in b.log
    {
      SoloAlone(items, solo, start, first, b, early, late, checker, k);
    }
  }

  lemma VerifiedAreGood(items: seq<Item>, good: Item -> bool, b: Books, done: multiset<Item>, log: seq<Asked>)
    requires Judges(NoneSettled(log), b, done, good) && done <= multiset(items)
    ensures forall k | k in b.verified :: exists x :: x in items && x.key == k && good(x)
    ensures forall k | k in b.broken :: exists x :: x in items && x.key == k && !good(x)
  {
    forall x | x in done ensures x in items {
      assert x in multiset(items);
    }
  }

  lemma BadAreReported(items: seq<Item>, good: Item -> bool, reached: Books, done: multiset<Item>,
                       unchecked: multiset<Item>)
    requires forall k | k in reached.verified :: exists x :: x in items && x.key == k && good(x)
    requires reached.Settled() == Keys(done)
    requires multiset(items) == done + unchecked && IdentifyingKeys(items)
    ensures forall x | x in items && !good(x) :: x.key in reached.broken.Keys + Keys(unchecked)
  {
    forall x | x in items && !good(x) ensures x.key in reached.broken.Keys + Keys(unchecked) {
      assert x in multiset(items);
      assert x.key in Keys(done) || x.key in Keys(unchecked);
    }
  }

  /** `b` is `reached` with what was given up on reported as broken. */
  lemma IsRight(items: seq<Item>, good: Item -> bool, reached: Books, b: Books, done: multiset<Item>,
                unchecked: seq<Item>, log: seq<Asked>, notes: seq<Note>)
    requires Judges(NoneSettled(log), reached, done, good) && reached.Settled() == Keys(done)
    requires multiset(items) == done + multiset(unchecked) && IdentifyingKeys(items)
    requires b.verified == reached.verified && b.broken.Keys == reached.broken.Keys + Keys(multiset(unchecked))
    requires forall n | n in notes :: n.Bisected? || n.GaveUp?
    requires (forall n | n in notes :: !n.GaveUp?) ==> unchecked == []
    ensures Right(items, good, b, notes)
  {
    hide Judges, IdentifyingKeys;
    VerifiedAreGood(items, good, reached, done, log);
    BadAreReported(items, good, reached, done, multiset(unchecked));
    assert unchecked == [] ==> Keys(multiset(unchecked)) == {};
  }

  lemma Basics()
    ensures Keys(multiset([])) == {} && MAX_ROUNDS == 60
  {
  }

  lemma GaveUpNoted(notes: seq<Note>, size: nat)
    ensures GaveUp(size) in notes + [GaveUp(size)]
    ensures forall n :: n in notes + [GaveUp(size)] <==> n in notes || n == GaveUp(size)
  {
    assert (notes + [GaveUp(size)])[|notes|] == GaveUp(size);
  }

  lemma RemarksRead(notes: seq<Note>, quiet: bool)
    requires Remarks([], notes, quiet)
    ensures forall n | n in notes :: n.Bisected? || (!quiet && n.Nameless?)
  {
  }

  /** How the rounds end.  `reached` is how the books stand then, `unchecked` what they leave. */
  ghost predicate RoundsEnd(checker: Checker, items: seq<Item>, first: Books, reached: Books, unchecked: seq<Item>,
                            b: Books, notes: seq<Note>, good: Item -> bool) {
    && multiset(unchecked) <= multiset(items)
    && Moves(first, reached, multiset(items) - multiset(unchecked), checker)
    && (Single(Verdicts(checker), good) ==> Judges(first, reached, multiset(items) - multiset(unchecked), good))
    && Moves(first, b, multiset(items), checker) && Owned(first, b, notes)
    && b.verified == reached.verified && b.broken.Keys == reached.broken.Keys + Keys(multiset(unchecked))
    && (forall n | n in notes ::
      n.Bisected? || (n.Nameless? && !Single(Verdicts(checker), good)) || (n.GaveUp? && |items| > MAX_ROUNDS))
    && ((forall n | n in notes :: !n.GaveUp?) ==> unchecked == [])
  }

  lemma Converged(checker: Checker, items: seq<Item>, first: Books, settled: multiset<Item>, b: Books, notes: seq<Note>,
                  good: Item -> bool)
    requires Parted(items, settled, []) && Led(first, b, settled, [], notes, checker, good)
    ensures RoundsEnd(checker, items, first, b, [], b, notes, good)
  {
    hide Moves, Judges, Owned, Remarks, Single, Keys;
    Basics();
    RemarksRead(notes, Single(Verdicts(checker), good));
    assert settled == multiset(items) - multiset([]) && multiset(items) == settled;
  }

  lemma GivenUp(checker: Checker, items: seq<Item>, first: Books, reached: Books, settled: multiset<Item>,
                pending: seq<Item>, said: seq<Note>, b: Books, notes: seq<Note>, good: Item -> bool)
    requires Parted(items, settled, pending) && |items| > MAX_ROUNDS
    requires Led(first, reached, settled, [], said, checker, good) && Moves(reached, b, multiset(pending), checker)
    requires b.verified == reached.verified && b.broken.Keys == reached.broken.Keys + Keys(multiset(pending))
    requires GaveUp(|pending|) in notes && forall n :: n in notes <==> n in said || n == GaveUp(|pending|)
    ensures RoundsEnd(checker, items, first, reached, pending, b, notes, good)
  {
    hide Moves, Judges, Owned, Remarks, Single, Keys;
    RemarksRead(said, Single(Verdicts(checker), good));
    MovesThenMoves(first, reached, b, settled, multiset(pending), checker);
    OwnedUp(first, b, GaveUp(|pending|), notes);
    Subtract(multiset(items), settled, multiset(pending));
  }

  /** `while pending`: rounds until nothing is pending, or until there have been too many. */
  method Rounds(checker: Checker, blame: Blame, items: seq<Item>, first: Books, ghost good: Item -> bool)
    returns (b: Books, notes: seq<Note>, ghost reached: Books, ghost unchecked: seq<Item>)
    requires forall g, spots, i | i in blame(g, spots) :: i < |g|
    requires Faithful(Verdicts(checker), 0, first.log)
    ensures RoundsEnd(checker, items, first, reached, unchecked, b, notes, good)
    ensures Single(Verdicts(checker), good) && (forall x | x in items :: good(x)) ==> notes == []
    ensures first.log <= b.log && Kept(first, b, items, checker, blame)
    ensures AllPass(b.log) ==> notes == [] && Compiled(b.log) == Compiled(first.log) + Packed(items)
    ensures Exact(checker, blame, good) ==> notes == [] && b.interacting == first.interacting
  {
    hide *;
    ghost var exact := Exact(checker, blame, good);
    ghost var quiet := Single(Verdicts(checker), good);
    ghost var allGood := quiet && forall x | x in items :: good(x);
    var pending := items;
    b, notes, unchecked := first, [], [];
    ghost var settled: multiset<Item> := multiset{};
    NothingSettledYet(items);
    NoRoundYet(first, items);
    NoSecondRoundYet(first, items, good);
    LedNowhere(first, notes, checker, good);
    LedIs(first, first, settled, notes, notes, checker, good);
    KeptNothing(first, b, items, checker, blame);
    var rounds := 0;
    while pending != []
      invariant Parted(items, settled, pending)
      invariant rounds + |pending| <= |items| && rounds <= MAX_ROUNDS
      invariant Led(first, b, settled, [], notes, checker, good)
      invariant allGood ==> OneRound(items, pending, rounds, notes)
      invariant first.log <= b.log && Kept(first, b, items, checker, blame)
      invariant AllPass(b.log) ==> OneRound(items, pending, rounds, notes) && OnePass(first, b, items, pending)
      invariant exact ==> TwoRounds(first, b, items, pending, rounds, notes, good)
      decreases |pending|
    {
      rounds := rounds + 1;
      LedIs(first, b, settled, [], notes, checker, good);
      ghost var before, said := b, notes;
      if rounds > MAX_ROUNDS {
        Basics();
        RoundsOver(first, b, items, pending, rounds - 1, notes);
        TwoRoundsOver(first, b, items, pending, rounds - 1, notes, good);
        reached, unchecked := b, pending;
        b, notes := GiveUp(checker, pending, b, notes);
        KeptStill(first, reached, b, items, checker, blame);
        GivenUp(checker, items, first, reached, settled, unchecked, said, b, notes, good);
        return;
      }
      var still;
      b, notes, still := Round(checker, blame, pending, b, notes, good);
      PendingAre(items, settled, pending);
      if AllPass(b.log) { PassingRound(first, before, b, items, pending, still, rounds - 1, said, notes); }
      if exact { ExactRound(checker, blame, first, before, b, items, pending, still, rounds - 1, said, notes, good); }
      if allGood { GoodRound(checker, good, items, pending, still, rounds - 1, said, notes); }
      KeptTwice(first, before, b, items, pending, items, checker, blame);
      ghost var gone := multiset(pending) - multiset(still);
      LedOn(first, before, b, settled, gone, [], said, notes, checker, good);
      if |still| == |pending| {
        // The source reports a round that settled nothing here.  There is no such round.
        assert false;
      }
      PartedMore(items, settled, pending, still);
      pending, settled := still, settled + gone;
    }
    LedIs(first, b, settled, [], notes, checker, good);
    RoundsOver(first, b, items, pending, rounds, notes);
    TwoRoundsOver(first, b, items, pending, rounds, notes, good);
    reached := b;
    Converged(checker, items, first, settled, b, notes, good);
  }

  ghost predicate Parted(items: seq<Item>, settled: multiset<Item>, pending: seq<Item>) {
    multiset(items) == settled + multiset(pending)
  }

  lemma NothingSettledYet(items: seq<Item>)
    ensures Parted(items, multiset{}, items)
  {
  }

  lemma PartedMore(items: seq<Item>, settled: multiset<Item>, pending: seq<Item>, still: seq<Item>)
    requires Parted(items, settled, pending) && multiset(still) <= multiset(pending)
    ensures Parted(items, settled + (multiset(pending) - multiset(still)), still)
  {
  }

  lemma PendingAre(items: seq<Item>, settled: multiset<Item>, pending: seq<Item>)
    requires Parted(items, settled, pending)
    ensures forall x | x in pending :: x in items
  {
    forall x | x in pending ensures x in items {
      assert x in multiset(items);
    }
  }

  /** A first round that settles everything is the only one. */
  ghost predicate OneRound(items: seq<Item>, pending: seq<Item>, rounds: nat, notes: seq<Note>) {
    notes == [] && (pending == [] || (pending == items && rounds == 0))
  }

  /** When nothing is refused, that round has compiled the batches and nothing else. */
  ghost predicate OnePass(first: Books, b: Books, items: seq<Item>, pending: seq<Item>) {
    if pending == [] then Compiled(b.log) == Compiled(first.log) + Packed(items) else b == first
  }

  /** When the diagnostics are exact, what is left after a first round is good. */
  ghost predicate TwoRounds(first: Books, b: Books, items: seq<Item>, pending: seq<Item>, rounds: nat, notes: seq<Note>,
                            good: Item -> bool) {
    && notes == [] && b.interacting == first.interacting
    && (pending == [] || rounds == 0 || (rounds == 1 && forall x | x in pending :: good(x)))
  }

  lemma NoSecondRoundYet(first: Books, items: seq<Item>, good: Item -> bool)
    ensures TwoRounds(first, first, items, items, 0, [], good)
  {
  }

  lemma ExactRound(checker: Checker, blame: Blame, first: Books, before: Books, b: Books, items: seq<Item>,
                   pending: seq<Item>, still: seq<Item>, rounds: nat, said: seq<Note>, notes: seq<Note>,
                   good: Item -> bool)
    requires Exact(checker, blame, good) && TwoRounds(first, before, items, pending, rounds, said, good)
    requires pending != [] && Spares(before, b, said, notes, still, good)
    requires Untroubled(checker, good, pending, said, notes, still)
    ensures TwoRounds(first, b, items, still, rounds + 1, notes, good)
  {
    hide Single;
  }

  lemma TwoRoundsOver(first: Books, b: Books, items: seq<Item>, pending: seq<Item>, rounds: nat, notes: seq<Note>,
                      good: Item -> bool)
    ensures TwoRounds(first, b, items, pending, rounds, notes, good) ==>
      notes == [] && b.interacting == first.interacting && (pending == [] || rounds <= 1)
  {
  }

  lemma NoRoundYet(first: Books, items: seq<Item>)
    ensures OneRound(items, items, 0, []) && OnePass(first, first, items, items)
  {
    hide Compiled;
    NonePacked();
    if items == [] { assert Compiled(first.log) + [] == Compiled(first.log); }
  }

  lemma PassingRound(first: Books, before: Books, b: Books, items: seq<Item>, pending: seq<Item>, still: seq<Item>,
                     rounds: nat, said: seq<Note>, notes: seq<Note>)
    requires AllPass(b.log) && before.log <= b.log && pending != []
    requires AllPass(before.log) ==> OneRound(items, pending, rounds, said) && OnePass(first, before, items, pending)
    requires Smooth(before.log, b.log, Packed(pending), said, notes, still)
    ensures OneRound(items, still, rounds + 1, notes) && OnePass(first, b, items, still)
  {
    hide Compiled, Packed, AllPass;
    PassedSoFar(before.log, b.log);
  }

  lemma GoodRound(checker: Checker, good: Item -> bool, items: seq<Item>, pending: seq<Item>, still: seq<Item>,
                  rounds: nat, said: seq<Note>, notes: seq<Note>)
    requires Single(Verdicts(checker), good) && (forall x | x in items :: good(x))
    requires forall x | x in pending :: x in items
    requires OneRound(items, pending, rounds, said) && Untroubled(checker, good, pending, said, notes, still)
    ensures OneRound(items, still, rounds + 1, notes)
  {
    hide Single;
  }

  lemma RoundsOver(first: Books, b: Books, items: seq<Item>, pending: seq<Item>, rounds: nat, notes: seq<Note>)
    ensures OneRound(items, pending, rounds, notes) ==> notes == [] && (pending != [] ==> rounds == 0)
    ensures pending == [] && OnePass(first, b, items, pending) ==>
      Compiled(b.log) == Compiled(first.log) + Packed(items)
  {
    hide Compiled, Packed;
  }

  lemma NonePacked()
    ensures Packed([]) == []
  {
  }

  lemma Subtract(whole: multiset<Item>, part: multiset<Item>, rest: multiset<Item>)
    requires whole == part + rest
    ensures rest <= whole && whole - rest == part
    ensures rest == multiset{} ==> whole == part
  {
    forall x ensures rest[x] <= whole[x] && (whole - rest)[x] == part[x] {
    }
  }

  /** Too many rounds: what is pending is reported as broken, unchecked. */
  method GiveUp(checker: Checker, pending: seq<Item>, b: Books, notes: seq<Note>) returns (c: Books, remarks: seq<Note>)
    requires Faithful(Verdicts(checker), 0, b.log)
    ensures c == b.(broken := c.broken)
    ensures c.broken.Keys == b.broken.Keys + Keys(multiset(pending))
    ensures Moves(b, c, multiset(pending), checker)
    ensures GaveUp(|pending|) in remarks && forall n :: n in remarks <==> n in notes || n == GaveUp(|pending|)
  {
    hide Moves, Faithful, Keys;
    remarks := notes + [GaveUp(|pending|)];
    GaveUpNoted(notes, |pending|);
    c := b.(broken := WithDefault(b.broken, pending, NotConverged));
    AllDefaulted(b, c, pending, NotConverged, checker);
  }

  /** The compiles of a sweep in which none is refused: the control, each `solo` item alone, and
      one a batch. */
  function Planned(items: seq<Item>, solo: set<Key>): seq<seq<Item>> {
    var apart := set i: nat | i < |items| && items[i].key in solo;
    [[]] + Singles(Named(items, apart)) + Packed(Others(items, apart))
  }

  lemma PlannedIs(items: seq<Item>, solo: set<Key>, apart: set<nat>)
    requires apart == set i: nat | i < |items| && items[i].key in solo
    ensures Planned(items, solo) == [[]] + Singles(Named(items, apart)) + Packed(Others(items, apart))
    ensures Compiled([]) == []
  {
  }

  /** `sweep`. */
  method Sweep(checker: Checker, blame: Blame, items: seq<Item>, solo: set<Key>, ghost good: Item -> bool)
    returns (b: Books, notes: seq<Note>)
    requires forall g, spots, i | i in blame(g, spots) :: i < |g|
    ensures b.log != [] && b.log[0].group == [] && Faithful(Verdicts(checker), 0, b.log) && About(0, b.log, items)
    ensures forall k :: k in b.softly <==>
      exists n :: 1 <= n < |b.log| && SoftlyBlamed(blame, b.log[n].group, checker(n, b.log[n].group), k)
    ensures !b.log[0].ok ==> b == NoneSettled([Asked([], false)])
    ensures !b.log[0].ok ==> |notes| == 1 && notes[0].ControlFailed? && Explains(checker(0, []), notes[0].fault)
    ensures b.log[0].ok ==> Complete(checker, items, solo, b, notes)
    ensures b.log[0].ok && Single(Verdicts(checker), good) && IdentifyingKeys(items) ==> Right(items, good, b, notes)
    ensures Single(Verdicts(checker), good) && (forall x | x in items :: good(x)) ==> b.log[0].ok && notes == []
    ensures AllPass(b.log) ==> notes == [] && Compiled(b.log) == Planned(items, solo)
    ensures Exact(checker, blame, good) && IdentifyingKeys(items) ==>
      b.log[0].ok && notes == [] && SplitsExactly(items, solo, good, b)
  {
    hide AllPass, Compiled, Planned, Singles, Packed, Moves, Judges, Single, Remarks, Faithful, VerifiedAlone,
         Complete, Right, IdentifyingKeys, Others, Named, Kept, About, Softly, Fault, Owned, Sparing, RoundsEnd,
         Explains, Exact, SoftlyBlamed, SplitsExactly;
    notes := [];
    var control := checker(0, []);
    var log := [Asked([], control.ok)];
    b := NoneSettled(log);
    ControlLogged(checker, blame, control, log, items);
    SingleControl(Verdicts(checker), good);
    if Exact(checker, blame, good) { ExactIs(checker, blame, good, 0, []); }
    if !control.ok {
      FaultExplains(control);
      notes := [ControlFailed(Fault(control))];
      Refused(log);
      return;
    }
    ghost var start := b;
    var apart := set i: nat | i < |items| && items[i].key in solo;
    var together := Others(items, apart);
    b := EachSingly(checker, blame, items, apart, b, good);
    ghost var first, early := b, multiset(Named(items, apart));
    MovesIsFaithful(start, first, early, checker);
    ghost var reached, unchecked;
    b, notes, reached, unchecked := Rounds(checker, blame, together, b, good);
    OthersAre(items, apart);
    KeptThroughout(start, first, b, together, items, checker, blame);
    PassedSoFar(first.log, b.log);
    CompiledMore([], log[0]);
    PlannedIs(items, solo, apart);
    Concludes(checker, items, solo, apart, start, first, reached, unchecked, b, notes, good);
    forall k ensures k in b.softly <==>
      exists n :: 1 <= n < |b.log| && SoftlyBlamed(blame, b.log[n].group, checker(n, b.log[n].group), k)
    {
      SoftlyIs(checker, blame, b.log, k);
    }
    if Exact(checker, blame, good) && IdentifyingKeys(items) {
      OnlySoloInteract(checker, items, solo, apart, start, first);
      ExactSplit(checker, items, solo, good, b, notes);
      SplitIs(items, solo, good, b);
    }
  }

  /** Exactly the good ones are verified, exactly the bad ones reported, and only what was known to
      interact is noted so. */
  ghost predicate SplitsExactly(items: seq<Item>, solo: set<Key>, good: Item -> bool, b: Books) {
    && b.verified == (set x | x in items && good(x) :: x.key)
    && b.broken.Keys == (set x | x in items && !good(x) :: x.key)
    && b.interacting <= solo
  }

  lemma SplitIs(items: seq<Item>, solo: set<Key>, good: Item -> bool, b: Books)
    requires b.verified == set x | x in items && good(x) :: x.key
    requires b.broken.Keys == set x | x in items && !good(x) :: x.key
    requires b.interacting <= solo
    ensures SplitsExactly(items, solo, good, b)
  {
  }

  lemma OnlySoloInteract(checker: Checker, items: seq<Item>, solo: set<Key>, apart: set<nat>, start: Books,
                         first: Books)
    requires start == NoneSettled(start.log) && Moves(start, first, multiset(Named(items, apart)), checker)
    requires apart == set i: nat | i < |items| && items[i].key in solo
    ensures first.interacting <= solo
  {
    hide Once, Faithful, Keys, DistinctKeys, AccusedFor;
    forall k | k in first.interacting ensures k in solo {
      var x :| x in multiset(Named(items, apart)) && x.key == k && Asked([x], true) in first.log;
      NamedAre(items, apart);
      assert x in Named(items, apart);
    }
  }

  lemma {:induction false} NamedAre(group: seq<Item>, suspects: set<nat>)
    ensures forall x | x in Named(group, suspects) :: exists i :: 0 <= i < |group| && i in suspects && group[i] == x
  {
    if group != [] {
      var n := |group| - 1;
      NamedAre(group[..n], suspects);
      forall x | x in Named(group, suspects) ensures exists i :: 0 <= i < |group| && i in suspects && group[i] == x {
        if x in Named(group[..n], suspects) {
          var i :| 0 <= i < n && i in suspects && group[..n][i] == x;
          assert group[i] == x;
        } else {
          assert group[n] == x;
        }
      }
    }
  }

  lemma ControlLogged(checker: Checker, blame: Blame, control: Answer, log: seq<Asked>, items: seq<Item>)
    requires control == checker(0, []) && log == [Asked([], control.ok)]
    ensures Faithful(Verdicts(checker), 0, log) && About(0, log, items) && Softly(checker, blame, log) == {}
    ensures log == [] + [log[0]]
  {
    assert log[1..] == [];
  }

  lemma KeptThroughout(start: Books, first: Books, b: Books, together: seq<Item>, items: seq<Item>, checker: Checker,
                       blame: Blame)
    requires Kept(start, first, items, checker, blame) && Kept(first, b, together, checker, blame)
    requires forall x | x in together :: x in items
    requires |start.log| == 1 && start.log[0].group == [] && start.softly == Softly(checker, blame, start.log)
    ensures About(0, b.log, items) && b.softly == Softly(checker, blame, b.log)
  {
    hide Softly;
    KeptTwice(start, first, b, items, together, items, checker, blame);
    assert b.log[0] == start.log[0];
  }

  lemma Concludes(checker: Checker, items: seq<Item>, solo: set<Key>, apart: set<nat>, start: Books, first: Books,
                  reached: Books, unchecked: seq<Item>, b: Books, notes: seq<Note>, good: Item -> bool)
    requires |start.log| == 1 && start == NoneSettled(start.log)
    requires apart == set i: nat | i < |items| && items[i].key in solo
    requires Moves(start, first, multiset(Named(items, apart)), checker)
    requires Single(Verdicts(checker), good) ==> Judges(start, first, multiset(Named(items, apart)), good)
    requires VerifiedAlone(start, first, multiset(Named(items, apart)))
    requires Sparing(start, first)
    requires RoundsEnd(checker, Others(items, apart), first, reached, unchecked, b, notes, good)
    ensures start.log <= b.log && Faithful(Verdicts(checker), 0, b.log)
    ensures Complete(checker, items, solo, b, notes)
    ensures Single(Verdicts(checker), good) && IdentifyingKeys(items) ==> Right(items, good, b, notes)
  {
    hide *;
    var early, late := multiset(Named(items, apart)), multiset(Others(items, apart));
    ApartAndTogether(items, solo, apart);
    RoundsEndIs(checker, Others(items, apart), first, reached, unchecked, b, notes, good);
    MovesIsFaithful(start, first, early, checker);
    MovesIsFaithful(first, b, late, checker);
    IsComplete(checker, items, solo, first, b, early, late, start.log, notes);
    if Single(Verdicts(checker), good) && IdentifyingKeys(items) {
      MovesThenMoves(start, first, reached, early, late - multiset(unchecked), checker);
      JudgesThenJudges(start, first, reached, early, late - multiset(unchecked), good);
      SettledFromNothing(start, reached, early + (late - multiset(unchecked)), checker);
      assert multiset(items) == early + (late - multiset(unchecked)) + multiset(unchecked);
      IsRight(items, good, reached, b, early + (late - multiset(unchecked)), unchecked, start.log, notes);
    }
  }

  lemma RoundsEndIs(checker: Checker, items: seq<Item>, first: Books, reached: Books, unchecked: seq<Item>, b: Books,
                    notes: seq<Note>, good: Item -> bool)
    requires RoundsEnd(checker, items, first, reached, unchecked, b, notes, good)
    ensures multiset(unchecked) <= multiset(items) && Owned(first, b, notes)
    ensures Moves(first, reached, multiset(items) - multiset(unchecked), checker)
    ensures Moves(first, b, multiset(items), checker)
    ensures Single(Verdicts(checker), good) ==> Judges(first, reached, multiset(items) - multiset(unchecked), good)
    ensures b.verified == reached.verified && b.broken.Keys == reached.broken.Keys + Keys(multiset(unchecked))
    ensures forall n | n in notes :: n.Bisected? || n.Nameless? || (n.GaveUp? && |items| > MAX_ROUNDS)
    ensures Single(Verdicts(checker), good) ==> forall n | n in notes :: n.Bisected? || n.GaveUp?
    ensures (forall n | n in notes :: !n.GaveUp?) ==> unchecked == []
  {
    hide Moves, Judges, Owned, Single, Keys;
  }

  lemma ApartAndTogether(items: seq<Item>, solo: set<Key>, apart: set<nat>)
    requires apart == set i: nat | i < |items| && items[i].key in solo
    ensures multiset(items) == multiset(Named(items, apart)) + multiset(Others(items, apart))
    ensures |Others(items, apart)| <= |items|
    ensures forall x | x in multiset(Others(items, apart)) :: x.key !in solo
  {
    NamedAndOthers(items, apart);
    OthersAre(items, apart);
    assert |multiset(items)| == |multiset(Named(items, apart))| + |multiset(Others(items, apart))|;
    forall x | x in multiset(Others(items, apart)) ensures x.key !in solo {
      assert x in Others(items, apart);
    }
  }

  lemma SettledFromNothing(b: Books, c: Books, done: multiset<Item>, checker: Checker)
    requires b == NoneSettled(b.log) && Moves(b, c, done, checker)
    ensures c.Settled() == Keys(done)
  {
    hide Once, Keys, Faithful;
  }

  lemma SingleControl(ask: (nat, seq<Item>) -> bool, good: Item -> bool)
    ensures Single(ask, good) ==> ask(0, [])
  {
  }

  /** One key, one mutation: a key is a digest of everything the mutation is. */
  ghost predicate IdentifyingKeys(items: seq<Item>) {
    forall x, y | x in items && y in items && x.key == y.key :: x == y
  }

  /** When single mutations are to blame and the rounds suffice, the sweep is the split into
      good and bad. */
  lemma ExactSplit(checker: Checker, items: seq<Item>, solo: set<Key>, good: Item -> bool, b: Books, notes: seq<Note>)
    requires Complete(checker, items, solo, b, notes) && Right(items, good, b, notes) && IdentifyingKeys(items)
    requires |items| <= MAX_ROUNDS || forall n | n in notes :: !n.GaveUp?
    ensures b.verified == set x | x in items && good(x) :: x.key
    ensures b.broken.Keys == set x | x in items && !good(x) :: x.key
  {
    hide Once, DistinctKeys, Books.Passed;
    forall x | x in items && good(x) ensures x.key in b.verified {
      assert x in multiset(items);
      assert x.key in Keys(multiset(items));
    }
  }

  /** A mutation listed once has exactly one deed in a finished sweep: the one compile that decided
      it, or the one report that none did. */
  lemma EachDecidedOnce(checker: Checker, items: seq<Item>, solo: set<Key>, b: Books, notes: seq<Note>, x: Item)
    returns (deeds: seq<Deed>, k: nat)
    requires Complete(checker, items, solo, b, notes) && multiset(items)[x] == 1
    ensures Accounts(1, b.log, deeds, multiset(items), b.verified, b.broken.Keys)
    ensures k < |deeds| && x in Doing(b.log, deeds[k])
    ensures forall j | 0 <= j < |deeds| && j != k :: x !in Doing(b.log, deeds[j])
  {
    hide Accounts;
    deeds :| Accounts(1, b.log, deeds, multiset(items), b.verified, b.broken.Keys);
    AccountsSum(b.log, deeds, multiset(items), b.verified, b.broken.Keys);
    k := OneDeed(b.log, deeds, x);
  }

  lemma AccountsSum(log: seq<Asked>, deeds: seq<Deed>, done: multiset<Item>, verified: set<Key>, broken: set<Key>)
    requires Accounts(1, log, deeds, done, verified, broken)
    ensures Sum(log, deeds) == done
  {
  }
}
