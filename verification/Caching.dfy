/** Verdicts kept from one run to the next (`read_cache`, `write_cache` and the loop over the
    groups in `main`, in `scripts/check_mutation_types.py`).

    A verdict is filed under the mutation's key together with a fingerprint of everything the
    compiler read.  `history` is the record of every sweep ever made: its group, its fingerprint
    and the log of its compiles with their answers. */
module Caching {
  import opened Batching
  import opened Bisection
  import opened Ledger
  import opened Sweeping

  const VERSION := 1

  datatype Group = Rust | Js

  datatype Entry = Entry(fingerprint: string, verified: set<Key>, solo: set<Key>)

  /** `types.json`. */
  datatype Store = Unreadable | Stored(version: int, entries: map<Group, Entry>)

  /** A cache this version of the program can read. */
  predicate Current(store: Store) {
    store.Stored? && store.version == 1
  }

  function ReadCache(store: Store): map<Group, Entry> {
    if store.Stored? && store.version == VERSION then store.entries else map[]
  }

  // ----- the record of compiles -----

  /** The compiles of one sweep. */
  datatype Session = Session(group: Group, fingerprint: string, log: seq<Asked>)

  /** One of these compiles passed, under this fingerprint, with a mutation of this key in it. */
  ghost predicate Passed(history: seq<Session>, g: Group, fingerprint: string, key: Key) {
    exists s, a, x :: s in history && s.group == g && s.fingerprint == fingerprint && PassedIn(s, a, x, key)
  }

  ghost predicate PassedIn(s: Session, a: Asked, x: Item, key: Key) {
    a in s.log && a.ok && x in a.group && x.key == key
  }

  lemma PassedLater(history: seq<Session>, longer: seq<Session>, g: Group, fingerprint: string, key: Key)
    requires history <= longer && Passed(history, g, fingerprint, key)
    ensures Passed(longer, g, fingerprint, key)
  {
    var s, a, x :| s in history && s.group == g && s.fingerprint == fingerprint && PassedIn(s, a, x, key);
    var n :| 0 <= n < |history| && history[n] == s;
    assert longer[n] == s;
  }

  ghost predicate HonestEntries(entries: map<Group, Entry>, history: seq<Session>) {
    forall g, k | g in entries && k in entries[g].verified :: Passed(history, g, entries[g].fingerprint, k)
  }

  /** Every key stored as verified had a passing compile under the stored fingerprint. */
  ghost predicate Honest(store: Store, history: seq<Session>) {
    HonestEntries(ReadCache(store), history)
  }

  lemma HonestLater(entries: map<Group, Entry>, history: seq<Session>, longer: seq<Session>)
    requires history <= longer && HonestEntries(entries, history)
    ensures HonestEntries(entries, longer)
  {
    forall g, k | g in entries && k in entries[g].verified ensures Passed(longer, g, entries[g].fingerprint, k) {
      PassedLater(history, longer, g, entries[g].fingerprint, k);
    }
  }

  function Compiles(sessions: seq<Session>): nat {
    if sessions == [] then 0 else Compiles(sessions[..|sessions| - 1]) + |sessions[|sessions| - 1].log|
  }

  lemma CompilesMore(sessions: seq<Session>, s: Session)
    ensures Compiles(sessions + [s]) == Compiles(sessions) + |s.log|
  {
    assert (sessions + [s])[..|sessions|] == sessions;
  }

  function GoodIn(good: (Group, Item) -> bool, g: Group): Item -> bool {
    (x: Item) => good(g, x)
  }

  // ----- what a run finds -----

  /** What a run finds: the tables resolved against the sources, the sources' fingerprints, and
      the compilers. */
  datatype World = World(
    items: Group -> seq<Item>,
    unresolved: nat,
    fingerprint: Group -> string,
    checker: Group -> Checker,
    blame: Blame)
  {
    ghost predicate Proper() {
      forall group, spots, i | i in blame(group, spots) :: i < |group|
    }

    /** The session was held here: its answers are what the compiler said, one question after
        another, about mutations of the group. */
    ghost predicate Held(s: Session) {
      && s.fingerprint == fingerprint(s.group)
      && Faithful(Verdicts(checker(s.group)), 0, s.log) && About(0, s.log, items(s.group))
    }

    ghost predicate AllHeld(sessions: seq<Session>) {
      forall k | 0 <= k < |sessions| :: Held(sessions[k])
    }

    /** Single mutations are to blame in every group, and keys tell the mutations apart. */
    ghost predicate Decided(good: (Group, Item) -> bool) {
      forall g :: Single(Verdicts(checker(g)), GoodIn(good, g)) && IdentifyingKeys(items(g))
    }

    /** No pass on record is wrong about these sources. */
    ghost predicate Agrees(history: seq<Session>, good: (Group, Item) -> bool) {
      forall g, x | x in items(g) && Passed(history, g, fingerprint(g), x.key) :: good(g, x)
    }
  }

  /** `[i for i in items if i.key not in known]`. */
  function Todo(items: seq<Item>, known: set<Key>): (todo: seq<Item>)
    ensures forall x :: x in todo <==> x in items && x.key !in known
  {
    if items == [] then []
    else
      var n := |items| - 1;
      Todo(items[..n], known) + (if items[n].key in known then [] else [items[n]])
  }

  /** Every mutation of the group is on file as verified against these sources. */
  ghost predicate Remembered(w: World, g: Group, entries: map<Group, Entry>) {
    w.items(g) == []
    || (g in entries && entries[g].fingerprint == w.fingerprint(g)
        && forall x | x in w.items(g) :: x.key in entries[g].verified)
  }

  lemma {:induction false} NothingTodo(items: seq<Item>, known: set<Key>)
    requires forall x | x in items :: x.key in known
    ensures Todo(items, known) == []
  {
    if items != [] { NothingTodo(items[..|items| - 1], known); }
  }

  /** What a sweep verified is on record in its session. */
  lemma VerifiedIsRecorded(checker: Checker, g: Group, fingerprint: string, todo: seq<Item>, solo: set<Key>, b: Books,
                           notes: seq<Note>, history: seq<Session>, k: Key)
    requires Complete(checker, todo, solo, b, notes) && k in b.verified
    ensures Passed(history + [Session(g, fingerprint, b.log)], g, fingerprint, k)
  {
    hide Once;
    var s := Session(g, fingerprint, b.log);
    var x :| x in todo && x.key == k && b.Passed(x);
    var a :| a in b.log && a.ok && x in a.group;
    assert PassedIn(s, a, x, k);
    assert (history + [s])[|history|] == s;
  }

  /** Adding what is recorded to an entry of the same fingerprint, or beginning a new one, keeps
      every stored key backed by a passing compile. */
  lemma HonestGrows(w: World, g: Group, entries: map<Group, Entry>, history: seq<Session>, longer: seq<Session>,
                    known: set<Key>, verified: set<Key>, solo: set<Key>)
    requires known == {} || (g in entries && entries[g].fingerprint == w.fingerprint(g) && known == entries[g].verified)
    requires history <= longer && HonestEntries(entries, history)
    requires forall k | k in verified :: Passed(longer, g, w.fingerprint(g), k)
    ensures HonestEntries(entries[g := Entry(w.fingerprint(g), known + verified, solo)], longer)
    ensures forall k | k in known + verified :: Passed(longer, g, w.fingerprint(g), k)
  {
    hide Passed;
    HonestLater(entries, history, longer);
  }

  /** A sweep over what is not known finds fault exactly when something in the group is bad. */
  lemma FaultMeansBad(w: World, g: Group, todo: seq<Item>, known: set<Key>, solo: set<Key>, b: Books, notes: seq<Note>,
                      good: (Group, Item) -> bool)
    requires w.Decided(good) && todo == Todo(w.items(g), known)
    requires forall x | x in w.items(g) && x.key in known :: good(g, x)
    requires b.log != []
    requires (b.log[0].ok ==> Complete(w.checker(g), todo, solo, b, notes) && Right(todo, GoodIn(good, g), b, notes))
    requires !b.log[0].ok ==> |notes| == 1 && notes[0].ControlFailed?
    requires (forall x | x in todo :: GoodIn(good, g)(x)) ==> b.log[0].ok && notes == []
    ensures (forall n | n in notes :: !n.Fails()) && (forall x | x in todo :: x.key !in b.broken)
      <==> forall x | x in w.items(g) :: good(g, x)
  {
    assert !b.log[0].ok ==> notes[0].Fails();
    if forall x | x in w.items(g) :: good(g, x) {
      assert forall x | x in todo :: GoodIn(good, g)(x);
    }
    if (forall n | n in notes :: !n.Fails()) && (forall x | x in todo :: x.key !in b.broken) {
      forall x | x in w.items(g) ensures good(g, x) {
        assert x in todo ==> GoodIn(good, g)(x);
      }
    }
  }

  /** One turn of the loop in `main`: what is already known is not asked again; what the sweep
      proves joins it unless the sweep itself refuses.  A kill between any two compiles leaves the
      ones before it on record and nothing filed. */
  method RunGroup(w: World, g: Group, all: bool, entries: map<Group, Entry>, history: seq<Session>,
                  ghost good: (Group, Item) -> bool)
    returns (alive: bool, after: map<Group, Entry>, refused: bool, problems: bool, wrote: bool, longer: seq<Session>,
             compiles: nat, ghost b: Books)
    requires w.Proper()
    ensures !alive ==> !wrote
    ensures alive && all && w.items(g) != [] ==> compiles > 0
    ensures if wrote then Filed(w, g, all, entries, after) else after == entries
    ensures alive && !refused && !problems ==> Remembered(w, g, after)
    ensures Remembered(w, g, entries) && !all ==> alive && compiles == 0 && !refused && !problems && !wrote
    ensures if compiles == 0 then longer == history else
      |longer| == |history| + 1 && longer[..|history|] == history && |longer[|history|].log| == compiles
      && longer[|history|].group == g && w.Held(longer[|history|])
    ensures wrote ==> compiles > 0 && Earned(w, g, all, entries, after, longer[|history|..])
    ensures alive && all && !refused && !problems ==>
      forall x | x in w.items(g) :: Passed(longer[|history|..], g, w.fingerprint(g), x.key)
    ensures compiles > 0 ==> OnlyAsks(longer[|history|], w, g, all, entries)
    ensures wrote ==> FilesSolo(longer[|history|], w, g, all, entries, after, b)
    ensures HonestEntries(entries, history) ==> HonestEntries(after, longer)
    ensures HonestEntries(entries, history) && alive && !refused && !problems ==>
      forall x | x in w.items(g) :: Passed(longer, g, w.fingerprint(g), x.key)
    ensures HonestEntries(entries, history) && alive && w.Decided(good) && w.Agrees(history, good) ==>
      (!refused && !problems <==> forall x | x in w.items(g) :: good(g, x))
  {
    hide Single, Complete, Right, Faithful, IdentifyingKeys, Todo, HonestEntries, World.Held, World.Decided,
         World.Agrees, Remembered, Filed, Passed, About, Once, AllPass, Compiled, Planned, Softly, Fault, Earned,
         OnlyAsks, FilesSolo, Exact, SplitsExactly, SoftlyBlamed, Explains;
    var stored := if g in entries && !all then entries[g] else Entry("", {}, {});
    var current := g in entries && !all && stored.fingerprint == w.fingerprint(g);
    var known := if current then stored.verified else {};
    var todo := Todo(w.items(g), known);
    alive, after, refused, problems, wrote, longer, compiles := true, entries, false, false, false, history, 0;
    b := NoneSettled([]);
    if Remembered(w, g, entries) && !all { RememberedIsKnown(w, g, entries, known, todo); }
    if HonestEntries(entries, history) && w.Agrees(history, good) { KnownIsGood(w, g, entries, history, known, good); }
    if todo == [] {
      AllKnown(w, g, entries, history, known, todo);
      AllAreKnown(w.items(g), known, todo);
      if known == {} { NothingTodoFrom(w.items(g), todo); }
      return;
    }
    var books, notes := Sweep(w.checker(g), w.blame, todo, stored.solo, GoodIn(good, g));
    if HonestEntries(entries, history) && w.Decided(good) && w.Agrees(history, good) {
      DecidedIn(w, g, good);
      FewerKeys(w.items(g), todo);
      FaultMeansBad(w, g, todo, known, stored.solo, books, notes, good);
    }
    b := books;
    var asked :| 0 <= asked <= |books.log|;
    if asked < |books.log| {
      alive := false;
      if asked > 0 {
        longer, compiles := history + [Session(g, w.fingerprint(g), books.log[..asked])], asked;
        SessionIsHeld(w, g, todo, books, asked);
        AsksOnly(w, g, all, entries, known, todo, books.log, asked);
      }
      if HonestEntries(entries, history) { HonestLater(entries, history, longer); }
      return;
    }
    longer, compiles := history + [Session(g, w.fingerprint(g), books.log)], |books.log|;
    assert books.log[..|books.log|] == books.log;
    SessionIsHeld(w, g, todo, books, |books.log|);
    AsksOnly(w, g, all, entries, known, todo, books.log, |books.log|);
    refused := exists n | n in notes :: n.Fails();
    if refused {
      if HonestEntries(entries, history) { HonestLater(entries, history, longer); }
      return;
    }
    problems := exists x | x in todo :: x.key in books.broken;
    NoRefusal(w.checker(g), books, notes, todo, stored.solo);
    wrote := true;
    after := entries[g := Entry(w.fingerprint(g), known + books.verified, stored.solo + books.interacting)];
    Wrote(w, g, all, entries, after, history, longer, stored, known, todo, books, notes);
  }

  lemma Wrote(w: World, g: Group, all: bool, entries: map<Group, Entry>, after: map<Group, Entry>,
              history: seq<Session>,
              longer: seq<Session>, stored: Entry, known: set<Key>, todo: seq<Item>, b: Books, notes: seq<Note>)
    requires stored == if g in entries && !all then entries[g] else Entry("", {}, {})
    requires known == if g in entries && !all && stored.fingerprint == w.fingerprint(g) then stored.verified else {}
    requires todo == Todo(w.items(g), known) && Complete(w.checker(g), todo, stored.solo, b, notes)
    requires (forall n | n in notes :: !n.Fails()) && longer == history + [Session(g, w.fingerprint(g), b.log)]
    requires after == entries[g := Entry(w.fingerprint(g), known + b.verified, stored.solo + b.interacting)]
    ensures Earned(w, g, all, entries, after, longer[|history|..]) && Filed(w, g, all, entries, after)
    ensures FilesSolo(longer[|history|], w, g, all, entries, after, b)
    ensures (forall x | x in todo :: x.key in b.verified) ==> Remembered(w, g, after)
    ensures all && (forall x | x in todo :: x.key in b.verified) ==>
      forall x | x in w.items(g) :: Passed(longer[|history|..], g, w.fingerprint(g), x.key)
    ensures HonestEntries(entries, history) ==> HonestEntries(after, longer)
    ensures HonestEntries(entries, history) && (forall x | x in todo :: x.key in b.verified) ==>
      forall x | x in w.items(g) :: Passed(longer, g, w.fingerprint(g), x.key)
  {
    assert forall k | k in known :: OnFile(w, g, all, entries, k);
    hide Complete, Todo, HonestEntries, Remembered, Filed, Passed, Earned, FilesSolo, OnFile;
    IsEarned(w, g, all, entries, known, todo, stored.solo, b, notes, history, longer, after);
    SoloIsFiled(w, g, all, entries, after, todo, stored.solo, b, notes);
    if all { AllEarned(w, g, entries, after, longer[|history|..], todo, b.verified); }
    WroteGroup(w, g, all, entries, stored, known, todo, b.verified, stored.solo + b.interacting);
    if HonestEntries(entries, history) {
      HonestGrows(w, g, entries, history, longer, known, b.verified, stored.solo + b.interacting);
      PassedOrKnown(w, g, known, todo, b.verified, longer);
    }
  }

  /** Verified against these sources by an earlier run, and not to be checked again. */
  predicate OnFile(w: World, g: Group, all: bool, entries: map<Group, Entry>, k: Key) {
    g in entries && !all && entries[g].fingerprint == w.fingerprint(g) && k in entries[g].verified
  }

  /** What is filed and was not on file has passed in one of these sessions, and what was to be
      checked and is not filed was refused in one of them, compiled alone. */
  ghost predicate Earned(w: World, g: Group, all: bool, entries: map<Group, Entry>, after: map<Group, Entry>,
                         sessions: seq<Session>)
    requires g in after
  {
    && (forall k | k in after[g].verified && !OnFile(w, g, all, entries, k) ::
      Passed(sessions, g, w.fingerprint(g), k))
    && (forall x | x in w.items(g) && x.key !in after[g].verified :: RefusedAlone(sessions, g, w.fingerprint(g), x.key))
  }

  ghost predicate RefusedAlone(sessions: seq<Session>, g: Group, fingerprint: string, key: Key) {
    exists s, x: Item ::
      s in sessions && s.group == g && s.fingerprint == fingerprint && x.key == key && Asked([x], false) in s.log
  }

  lemma IsEarned(w: World, g: Group, all: bool, entries: map<Group, Entry>, known: set<Key>, todo: seq<Item>,
                 solo: set<Key>,
                 b: Books, notes: seq<Note>, history: seq<Session>, longer: seq<Session>, after: map<Group, Entry>)
    requires Complete(w.checker(g), todo, solo, b, notes) && forall n | n in notes :: !n.Fails()
    requires forall k | k in known :: OnFile(w, g, all, entries, k)
    requires todo == Todo(w.items(g), known) && longer == history + [Session(g, w.fingerprint(g), b.log)]
    requires g in after && after[g].verified == known + b.verified
    ensures forall k | k in b.verified :: Passed(longer, g, w.fingerprint(g), k)
    ensures Earned(w, g, all, entries, after, longer[|history|..])
  {
    hide Complete, Passed, RefusedAlone;
    var now := [Session(g, w.fingerprint(g), b.log)];
    assert longer[|history|..] == [] + now;
    forall k | k in b.verified
      ensures Passed(longer, g, w.fingerprint(g), k) && Passed([] + now, g, w.fingerprint(g), k)
    {
      VerifiedIsRecorded(w.checker(g), g, w.fingerprint(g), todo, solo, b, notes, history, k);
      VerifiedIsRecorded(w.checker(g), g, w.fingerprint(g), todo, solo, b, notes, [], k);
    }
    forall x | x in w.items(g) && x.key !in after[g].verified
      ensures RefusedAlone([] + now, g, w.fingerprint(g), x.key)
    {
      BrokenIsRecorded(w.checker(g), g, w.fingerprint(g), todo, solo, b, notes, x);
      assert [] + now == now;
    }
  }

  lemma BrokenIsRecorded(checker: Checker, g: Group, fingerprint: string, todo: seq<Item>, solo: set<Key>, b: Books,
                         notes: seq<Note>, x: Item)
    requires Complete(checker, todo, solo, b, notes) && (forall n | n in notes :: !n.Fails()) && x in todo
    requires x.key !in b.verified
    ensures RefusedAlone([Session(g, fingerprint, b.log)], g, fingerprint, x.key)
  {
    hide Complete;
    var y := BrokenWasRefused(checker, todo, solo, b, notes, x);
    assert Session(g, fingerprint, b.log) in [Session(g, fingerprint, b.log)];
  }

  lemma BrokenWasRefused(checker: Checker, todo: seq<Item>, solo: set<Key>, b: Books, notes: seq<Note>, x: Item)
    returns (y: Item)
    requires Complete(checker, todo, solo, b, notes) && (forall n | n in notes :: !n.Fails()) && x in todo
    requires x.key !in b.verified
    ensures y.key == x.key && Asked([y], false) in b.log
  {
    hide Once, DistinctKeys, Explains, Books.Passed;
    IsBroken(todo, b, x);
    y :| y in todo && y.key == x.key && Refuted(checker, b.log, y, b.broken[x.key]);
  }

  lemma IsBroken(todo: seq<Item>, b: Books, x: Item)
    requires b.Settled() == Keys(multiset(todo)) && x in todo && x.key !in b.verified
    ensures x.key in b.broken
  {
    assert x in multiset(todo);
    assert x.key in Keys(multiset(todo));
  }

  /** As far as it got, a sweep is a session. */
  lemma SessionIsHeld(w: World, g: Group, todo: seq<Item>, b: Books, asked: nat)
    requires asked <= |b.log|
    requires Faithful(Verdicts(w.checker(g)), 0, b.log) && About(0, b.log, todo)
    requires forall x | x in todo :: x in w.items(g)
    ensures w.Held(Session(g, w.fingerprint(g), b.log[..asked]))
  {
  }

  /** The compiles were of mutations of the group that are not on file as verified against these
      sources, or of any of them when all are to be checked. */
  ghost predicate OnlyAsks(s: Session, w: World, g: Group, all: bool, entries: map<Group, Entry>) {
    forall a, x | a in s.log && x in a.group ::
      && x in w.items(g)
      && !OnFile(w, g, all, entries, x.key)
  }

  /** The list of interacting mutations is the old one and those the sweep noted, each of which
      has passed alone, and all that were on the list and passed among them. */
  ghost predicate FilesSolo(s: Session, w: World, g: Group, all: bool, entries: map<Group, Entry>,
                            after: map<Group, Entry>, b: Books)
    requires g in after
  {
    var before := if g in entries && !all then entries[g].solo else {};
    && s.log == b.log && after[g].solo == before + b.interacting
    && (forall k | k in b.interacting :: AlonePassed(s, k))
    && forall k | k in b.verified && k in before :: k in b.interacting
  }

  ghost predicate AlonePassed(s: Session, k: Key) {
    exists x: Item :: x.key == k && Asked([x], true) in s.log
  }

  lemma AsksOnly(w: World, g: Group, all: bool, entries: map<Group, Entry>, known: set<Key>, todo: seq<Item>,
                 log: seq<Asked>, asked: nat)
    requires asked <= |log| && About(0, log, todo) && todo == Todo(w.items(g), known)
    requires g in entries && !all && entries[g].fingerprint == w.fingerprint(g) ==> known == entries[g].verified
    ensures OnlyAsks(Session(g, w.fingerprint(g), log[..asked]), w, g, all, entries)
  {
  }

  /** When all are to be checked, whatever was not reported has passed just now. */
  lemma AllEarned(w: World, g: Group, entries: map<Group, Entry>, after: map<Group, Entry>, sessions: seq<Session>,
                  todo: seq<Item>, verified: set<Key>)
    requires g in after && Earned(w, g, true, entries, after, sessions) && verified <= after[g].verified
    requires todo == Todo(w.items(g), {})
    ensures (forall x | x in todo :: x.key in verified) ==>
      forall x | x in w.items(g) :: Passed(sessions, g, w.fingerprint(g), x.key)
  {
    hide Passed, RefusedAlone;
  }

  lemma SoloIsFiled(w: World, g: Group, all: bool, entries: map<Group, Entry>, after: map<Group, Entry>,
                    todo: seq<Item>, solo: set<Key>, b: Books, notes: seq<Note>)
    requires Complete(w.checker(g), todo, solo, b, notes) && g in after && after[g].solo == solo + b.interacting
    requires solo == if g in entries && !all then entries[g].solo else {}
    ensures FilesSolo(Session(g, w.fingerprint(g), b.log), w, g, all, entries, after, b)
  {
    hide Once, Refuted;
  }

  /** The group has a new entry for these sources, which forgets nothing that still counts; the
      other group keeps its own. */
  ghost predicate Filed(w: World, g: Group, all: bool, entries: map<Group, Entry>, after: map<Group, Entry>) {
    && after.Keys == entries.Keys + {g} && after[g].fingerprint == w.fingerprint(g)
    && (forall h | h in entries && h != g :: after[h] == entries[h])
    && (g in entries && !all ==> entries[g].solo <= after[g].solo)
    && (g in entries && !all && entries[g].fingerprint == w.fingerprint(g) ==> entries[g].verified <= after[g].verified)
  }

  lemma WroteGroup(w: World, g: Group, all: bool, entries: map<Group, Entry>, stored: Entry, known: set<Key>,
                   todo: seq<Item>, verified: set<Key>, solo: set<Key>)
    requires g in entries && !all ==>
      stored == entries[g] && (stored.fingerprint == w.fingerprint(g) ==> known == stored.verified)
    requires todo == Todo(w.items(g), known) && stored.solo <= solo
    ensures var after := entries[g := Entry(w.fingerprint(g), known + verified, solo)];
      && Filed(w, g, all, entries, after)
      && ((forall x | x in todo :: x.key in verified) ==> Remembered(w, g, after))
  {
  }

  lemma PassedOrKnown(w: World, g: Group, known: set<Key>, todo: seq<Item>, verified: set<Key>, longer: seq<Session>)
    requires todo == Todo(w.items(g), known)
    requires forall k | k in known + verified :: Passed(longer, g, w.fingerprint(g), k)
    ensures (forall x | x in todo :: x.key in verified) ==>
      forall x | x in w.items(g) :: Passed(longer, g, w.fingerprint(g), x.key)
  {
  }

  lemma AllKnown(w: World, g: Group, entries: map<Group, Entry>, history: seq<Session>, known: set<Key>,
                 todo: seq<Item>)
    requires known == {} || (g in entries && entries[g].fingerprint == w.fingerprint(g) && known == entries[g].verified)
    requires todo == Todo(w.items(g), known) && todo == []
    ensures HonestEntries(entries, history) ==>
      forall x | x in w.items(g) :: Passed(history, g, w.fingerprint(g), x.key)
    ensures Remembered(w, g, entries)
  {
    AllAreKnown(w.items(g), known, todo);
    if w.items(g) != [] { assert w.items(g)[0] in w.items(g); }
  }

  lemma NothingTodoFrom(items: seq<Item>, todo: seq<Item>)
    requires todo == Todo(items, {})
    ensures todo == [] ==> items == []
  {
    if items != [] { assert items[0] in todo; }
  }

  lemma AllAreKnown(items: seq<Item>, known: set<Key>, todo: seq<Item>)
    requires todo == Todo(items, known) && todo == []
    ensures forall x | x in items :: x.key in known
  {
    forall x | x in items ensures x.key in known {
      assert x !in todo;
    }
  }

  lemma RememberedIsKnown(w: World, g: Group, entries: map<Group, Entry>, known: set<Key>, todo: seq<Item>)
    requires Remembered(w, g, entries) && todo == Todo(w.items(g), known)
    requires g in entries && entries[g].fingerprint == w.fingerprint(g) ==> known == entries[g].verified
    ensures todo == []
  {
    NothingTodo(w.items(g), known);
  }

  lemma DecidedIn(w: World, g: Group, good: (Group, Item) -> bool)
    requires w.Decided(good)
    ensures Single(Verdicts(w.checker(g)), GoodIn(good, g)) && IdentifyingKeys(w.items(g))
  {
  }

  lemma KnownIsGood(w: World, g: Group, entries: map<Group, Entry>, history: seq<Session>, known: set<Key>,
                    good: (Group, Item) -> bool)
    requires known == {} || (g in entries && entries[g].fingerprint == w.fingerprint(g) && known == entries[g].verified)
    requires HonestEntries(entries, history) && w.Agrees(history, good)
    ensures forall x | x in w.items(g) && x.key in known :: good(g, x)
  {
  }

  lemma FewerKeys(items: seq<Item>, todo: seq<Item>)
    requires forall x | x in todo :: x in items
    ensures IdentifyingKeys(items) ==> IdentifyingKeys(todo)
  {
  }

  /** A sweep that does not refuse has settled everything it was given. */
  lemma NoRefusal(checker: Checker, b: Books, notes: seq<Note>, todo: seq<Item>, solo: set<Key>)
    requires b.log != [] && (b.log[0].ok ==> Complete(checker, todo, solo, b, notes))
    requires !b.log[0].ok ==> |notes| == 1 && notes[0].ControlFailed?
    requires forall n | n in notes :: !n.Fails()
    ensures Complete(checker, todo, solo, b, notes)
    ensures (forall x | x in todo :: x.key !in b.broken) ==> forall x | x in todo :: x.key in b.verified
  {
    assert !b.log[0].ok ==> notes[0].Fails();
    forall x | x in todo ensures x.key in b.Settled() {
      assert x in multiset(todo);
      assert x.key in Keys(multiset(todo));
    }
  }

  /** What the compiler said is true, so a record that agreed before a run agrees after it. */
  lemma StillAgrees(w: World, history: seq<Session>, longer: seq<Session>, good: (Group, Item) -> bool)
    requires w.Decided(good) && w.Agrees(history, good)
    requires history <= longer && w.AllHeld(longer[|history|..])
    ensures w.Agrees(longer, good)
  {
    forall g, x | x in w.items(g) && Passed(longer, g, w.fingerprint(g), x.key) ensures good(g, x) {
      var s, a, y :| s in longer && s.group == g && s.fingerprint == w.fingerprint(g) && PassedIn(s, a, y, x.key);
      if s in history {
        assert Passed(history, g, w.fingerprint(g), x.key);
      } else {
        var n :| |history| <= n < |longer| && longer[n] == s;
        assert longer[|history|..][n - |history|] == s && w.Held(s);
        HeldPassIsGood(w, s, a, y, good);
        assert IdentifyingKeys(w.items(g));
      }
    }
  }

  lemma HeldPassIsGood(w: World, s: Session, a: Asked, y: Item, good: (Group, Item) -> bool)
    requires w.Decided(good) && w.Held(s) && a in s.log && a.ok && y in a.group
    ensures y in w.items(s.group) && good(s.group, y)
  {
    var n :| 0 <= n < |s.log| && s.log[n] == a;
    assert Verdicts(w.checker(s.group))(n, a.group);
    assert Single(Verdicts(w.checker(s.group)), GoodIn(good, s.group));
    assert GoodIn(good, s.group)(y);
  }

  /** Every chosen mutation has passed. */
  ghost predicate AllPassed(w: World, chosen: seq<Group>, history: seq<Session>) {
    forall g, x | g in chosen && x in w.items(g) :: Passed(history, g, w.fingerprint(g), x.key)
  }

  lemma AllPassedLater(w: World, chosen: seq<Group>, history: seq<Session>, longer: seq<Session>)
    requires history <= longer && AllPassed(w, chosen, history)
    ensures AllPassed(w, chosen, longer)
  {
    forall g, x | g in chosen && x in w.items(g) ensures Passed(longer, g, w.fingerprint(g), x.key) {
      PassedLater(history, longer, g, w.fingerprint(g), x.key);
    }
  }

  ghost predicate AllGood(w: World, chosen: seq<Group>, good: (Group, Item) -> bool) {
    forall g, x | g in chosen && x in w.items(g) :: good(g, x)
  }

  ghost predicate Something(w: World, chosen: seq<Group>) {
    exists g :: g in chosen && w.items(g) != []
  }

  lemma SomethingMore(w: World, chosen: seq<Group>, g: Group)
    ensures Something(w, chosen + [g]) <==> Something(w, chosen) || w.items(g) != []
  {
    assert g in chosen + [g];
    if Something(w, chosen) {
      var h :| h in chosen && w.items(h) != [];
      assert h in chosen + [g];
    }
  }

  ghost predicate AllRemembered(w: World, chosen: seq<Group>, entries: map<Group, Entry>) {
    forall g | g in chosen :: Remembered(w, g, entries)
  }

  lemma StillRemembered(w: World, chosen: seq<Group>, g: Group, all: bool, entries: map<Group, Entry>,
                        after: map<Group, Entry>)
    requires AllRemembered(w, chosen, entries) && Remembered(w, g, after)
    requires after == entries || Filed(w, g, all, entries, after)
    ensures AllRemembered(w, chosen + [g], after)
  {
  }

  /** What a stretch of a run adds to the record: sessions held here, with so many compiles. */
  ghost predicate Extends(w: World, history: seq<Session>, longer: seq<Session>, compiles: nat) {
    && history <= longer && w.AllHeld(longer[|history|..]) && Compiles(longer[|history|..]) == compiles
  }

  lemma ExtendsNothing(w: World, history: seq<Session>)
    ensures Extends(w, history, history, 0)
  {
    assert history[|history|..] == [];
  }

  lemma ExtendsOne(w: World, history: seq<Session>, before: seq<Session>, longer: seq<Session>, compiles: nat,
                   asked: nat)
    requires Extends(w, history, before, compiles)
    requires if asked == 0 then longer == before else
      && |longer| == |before| + 1 && longer[..|before|] == before
      && |longer[|before|].log| == asked && w.Held(longer[|before|])
    ensures Extends(w, history, longer, compiles + asked)
    ensures before <= longer && w.AllHeld(longer[|before|..])
  {
    hide World.Held;
    if asked == 0 {
      assert longer[|before|..] == [];
    } else {
      var s := longer[|before|];
      assert longer[|history|..] == before[|history|..] + [s];
      assert longer[|before|..] == [s];
      CompilesMore(before[|history|..], s);
    }
  }

  lemma OnePassedMore(w: World, chosen: seq<Group>, g: Group, before: seq<Session>, longer: seq<Session>)
    requires before <= longer && AllPassed(w, chosen, before)
    requires forall x | x in w.items(g) :: Passed(longer, g, w.fingerprint(g), x.key)
    ensures AllPassed(w, chosen + [g], longer)
  {
    hide Passed;
    AllPassedLater(w, chosen, before, longer);
  }

  /** `main` from `read_cache` to the exit code.  The file is replaced as a whole after each
      group, so a kill, during a sweep or at a write, leaves the last one written. */
  method Gate(w: World, chosen: seq<Group>, all: bool, store: Store, history: seq<Session>,
              ghost good: (Group, Item) -> bool)
    returns (alive: bool, exit: int, after: Store, longer: seq<Session>, compiles: nat)
    requires w.Proper()
    ensures alive && exit == 0 ==>
      AllRemembered(w, chosen, ReadCache(after)) && w.unresolved == 0 && Something(w, chosen)
    ensures AllRemembered(w, chosen, ReadCache(store)) && !all ==>
      compiles == 0 && after == store && alive && (exit == 0 <==> w.unresolved == 0 && Something(w, chosen))
    ensures Extends(w, history, longer, compiles)
    ensures Honest(store, history) ==> Honest(after, longer)
    ensures Honest(store, history) && alive && exit == 0 ==> AllPassed(w, chosen, longer)
    ensures alive && exit == 0 && (all || !Current(store)) ==> AllPassed(w, chosen, longer[|history|..])
    ensures after == store || (after.Stored? && after.version == 1)
    ensures Honest(store, history) && alive && w.Decided(good) && w.Agrees(history, good) ==>
      (exit == 0 <==> w.unresolved == 0 && AllGood(w, chosen, good) && Something(w, chosen))
  {
    hide World.Decided, World.Agrees, World.Held, World.AllHeld, Remembered, Filed, HonestEntries, Passed, Extends,
         AllPassed, Earned, OnlyAsks, FilesSolo, OnFile, World.Proper, AllRemembered, AllGood, Something;
    compiles := 0;
    alive, exit, after, longer := true, 1, store, history;
    var entries := ReadCache(store);
    var problems, refusals, checked := false, false, 0;
    ExtendsNothing(w, history);
    NothingPassed(w, history);
    NothingPassed(w, history[|history|..]);
    NothingRead(store, history[|history|..]);
    NobodyChosen(w, entries, good);
    assert chosen[..0] == [];
    for k := 0 to |chosen|
      invariant alive && exit == 1
      invariant Extends(w, history, longer, compiles)
      invariant Honest(store, history) ==> HonestEntries(entries, longer) && Honest(after, longer)
      invariant Honest(store, history) && !problems && !refusals ==> AllPassed(w, chosen[..k], longer)
      invariant Honest(store, history) && w.Decided(good) && w.Agrees(history, good) ==>
        w.Agrees(longer, good) && (!problems && !refusals <==> AllGood(w, chosen[..k], good))
      invariant ReadCache(after) == entries
      invariant !problems && !refusals ==> AllRemembered(w, chosen[..k], entries)
      invariant AllRemembered(w, chosen, ReadCache(store)) && !all ==>
        compiles == 0 && after == store && !problems && !refusals
      invariant checked >= 0 && (checked > 0 <==> Something(w, chosen[..k]))
      invariant history <= longer && (all && !problems && !refusals ==> AllPassed(w, chosen[..k], longer[|history|..]))
      invariant !Current(store) ==> HonestEntries(entries, longer[|history|..])
      invariant after == store || Current(after)
    {
      var g := chosen[k];
      ghost var before, held := longer, entries;
      assert chosen[..k + 1] == chosen[..k] + [g];
      SomethingMore(w, chosen[..k], g);
      AllGoodMore(w, chosen[..k], g, good);
      OneRemembered(w, chosen, ReadCache(store), k);
      var refused, faulty, wrote, asked;
      ghost var books;
      alive, entries, refused, faulty, wrote, longer, asked, books := RunGroup(w, g, all, entries, longer, good);
      ExtendsOne(w, history, before, longer, compiles, asked);
      compiles := compiles + asked;
      MoreHonest(after, before, longer);
      MadeSince(history, before, longer);
      if !alive {
        return;
      }
      if !problems && !refusals && !faulty && !refused {
        StillRemembered(w, chosen[..k], g, all, held, entries);
        if Honest(store, history) { OnePassedMore(w, chosen[..k], g, before, longer); }
        if all { NewlyPassedMore(w, chosen[..k], g, before[|history|..], longer[|before|..]); }
      }
      if !Current(store) {
        EarnedIsHonest(w, g, all, held, entries, before[|history|..], longer[|before|..], wrote);
      }
      if w.Decided(good) && w.Agrees(before, good) { StillAgrees(w, before, longer, good); }
      refusals, problems, checked := refusals || refused, problems || faulty, checked + |w.items(g)|;
      if wrote {
        var dies := *;
        if dies {
          alive := false;
          return;
        }
        after := Stored(VERSION, entries);
      }
    }
    assert chosen[..|chosen|] == chosen;
    if !problems && !refusals && w.unresolved == 0 && checked > 0 {
      if !Current(store) { RememberedHasPassed(w, chosen, entries, longer[|history|..]); }
      exit := 0;
    }
  }

  lemma NobodyChosen(w: World, entries: map<Group, Entry>, good: (Group, Item) -> bool)
    ensures AllRemembered(w, [], entries) && AllGood(w, [], good) && !Something(w, [])
  {
  }

  lemma AllGoodMore(w: World, chosen: seq<Group>, g: Group, good: (Group, Item) -> bool)
    ensures AllGood(w, chosen + [g], good) <==> AllGood(w, chosen, good) && forall x | x in w.items(g) :: good(g, x)
  {
  }

  lemma OneRemembered(w: World, chosen: seq<Group>, entries: map<Group, Entry>, k: nat)
    requires k < |chosen|
    ensures AllRemembered(w, chosen, entries) ==> Remembered(w, chosen[k], entries)
  {
  }

  lemma MadeSince(history: seq<Session>, before: seq<Session>, longer: seq<Session>)
    requires history <= before <= longer
    ensures longer[|history|..] == before[|history|..] + longer[|before|..]
  {
  }

  lemma NothingRead(store: Store, sessions: seq<Session>)
    ensures !Current(store) ==> HonestEntries(ReadCache(store), sessions)
  {
  }

  lemma PassedBehind(some: seq<Session>, others: seq<Session>, g: Group, fingerprint: string, key: Key)
    requires Passed(some, g, fingerprint, key) || Passed(others, g, fingerprint, key)
    ensures Passed(some + others, g, fingerprint, key)
  {
    if Passed(some, g, fingerprint, key) {
      PassedLater(some, some + others, g, fingerprint, key);
    } else {
      var s, a, x :| s in others && s.group == g && s.fingerprint == fingerprint && PassedIn(s, a, x, key);
      assert s in some + others;
    }
  }

  lemma NewlyPassedMore(w: World, chosen: seq<Group>, g: Group, made: seq<Session>, more: seq<Session>)
    requires AllPassed(w, chosen, made) && forall x | x in w.items(g) :: Passed(more, g, w.fingerprint(g), x.key)
    ensures AllPassed(w, chosen + [g], made + more)
  {
    hide Passed;
    forall h, x | h in chosen + [g] && x in w.items(h) ensures Passed(made + more, h, w.fingerprint(h), x.key) {
      PassedBehind(made, more, h, w.fingerprint(h), x.key);
    }
  }

  /** What a turn files, and keeps, has passed in the sessions there were and those it made. */
  lemma EarnedIsHonest(w: World, g: Group, all: bool, entries: map<Group, Entry>, after: map<Group, Entry>,
                       made: seq<Session>, more: seq<Session>, wrote: bool)
    requires HonestEntries(entries, made)
    requires wrote ==> Filed(w, g, all, entries, after) && Earned(w, g, all, entries, after, more)
    requires !wrote ==> after == entries
    ensures HonestEntries(after, made + more)
  {
    hide Passed;
    HonestLater(entries, made, made + more);
    if wrote {
      forall h, k | h in after && k in after[h].verified ensures Passed(made + more, h, after[h].fingerprint, k) {
        if h == g && !OnFile(w, g, all, entries, k) { PassedBehind(made, more, g, w.fingerprint(g), k); }
      }
    }
  }

  lemma RememberedHasPassed(w: World, chosen: seq<Group>, entries: map<Group, Entry>, sessions: seq<Session>)
    requires AllRemembered(w, chosen, entries) && HonestEntries(entries, sessions)
    ensures AllPassed(w, chosen, sessions)
  {
    hide Passed;
    forall g, x | g in chosen && x in w.items(g) ensures Passed(sessions, g, w.fingerprint(g), x.key) {
      assert Remembered(w, g, entries);
    }
  }

  lemma NothingPassed(w: World, history: seq<Session>)
    ensures AllPassed(w, [], history)
  {
  }

  lemma MoreHonest(store: Store, history: seq<Session>, longer: seq<Session>)
    requires history <= longer
    ensures Honest(store, history) ==> Honest(store, longer)
  {
    if Honest(store, history) { HonestLater(ReadCache(store), history, longer); }
  }

  // ----- many runs -----

  /** One run: what it finds, and how it is called. */
  datatype Visit = Visit(world: World, chosen: seq<Group>, all: bool)

  /** How it ended, and how long the record was before and then. */
  datatype Ending = Ending(alive: bool, exit: int, since: nat, upto: nat)

  /** Every session on record was held in the world of one of the runs. */
  ghost predicate Witnessed(visits: seq<Visit>, n: nat, history: seq<Session>) {
    forall k | 0 <= k < |history| :: exists j :: 0 <= j < n && j < |visits| && visits[j].world.Held(history[k])
  }

  lemma WitnessedMore(visits: seq<Visit>, n: nat, history: seq<Session>, longer: seq<Session>, compiles: nat)
    requires n < |visits| && Witnessed(visits, n, history) && Extends(visits[n].world, history, longer, compiles)
    ensures Witnessed(visits, n + 1, longer) && history <= longer
  {
    hide World.Held;
    forall k | 0 <= k < |longer| ensures exists j :: 0 <= j < n + 1 && j < |visits| && visits[j].world.Held(longer[k]) {
      if k < |history| {
        assert longer[k] == history[k];
        var j :| 0 <= j < n && j < |visits| && visits[j].world.Held(history[k]);
      } else {
        assert longer[|history|..][k - |history|] == longer[k];
      }
    }
  }

  /** A run that ended well has on record, from itself or a run before, a passing compile for
      each mutation it was asked about; from itself when it was to check all. */
  ghost predicate Truthful(visit: Visit, ending: Ending, history: seq<Session>) {
    && ending.since <= ending.upto <= |history|
    && (ending.alive && ending.exit == 0 ==> AllPassed(visit.world, visit.chosen, history[..ending.upto]))
    && (ending.alive && ending.exit == 0 && visit.all ==>
      AllPassed(visit.world, visit.chosen, history[ending.since..ending.upto]))
  }

  /** Any number of runs, between which the tables, the sources, the compilers and the arguments
      may change, each killed wherever it may be: the file stays honest, every compile on record
      was made by one of the runs, and every exit code is truthful. */
  method Ages(visits: seq<Visit>, ghost goods: nat -> (Group, Item) -> bool)
    returns (store: Store, history: seq<Session>, endings: seq<Ending>)
    requires forall k | 0 <= k < |visits| :: visits[k].world.Proper()
    ensures Honest(store, history) && Witnessed(visits, |visits|, history)
    ensures |endings| == |visits| && forall k | 0 <= k < |visits| :: Truthful(visits[k], endings[k], history)
  {
    hide Honest, Witnessed, Truthful, Extends, World.Proper;
    store, history, endings := Unreadable, [], [];
    NothingYet(visits);
    for k := 0 to |visits|
      invariant Honest(store, history) && Witnessed(visits, k, history)
      invariant |endings| == k && forall j | 0 <= j < k :: Truthful(visits[j], endings[j], history)
    {
      var before := history;
      var alive, exit, compiles;
      alive, exit, store, history, compiles :=
        Gate(visits[k].world, visits[k].chosen, visits[k].all, store, history, goods(k));
      WitnessedMore(visits, k, before, history, compiles);
      forall j | 0 <= j < k ensures Truthful(visits[j], endings[j], history) {
        TruthfulLater(visits[j], endings[j], before, history);
      }
      var ending := Ending(alive, exit, |before|, |history|);
      IsTruthful(visits[k], ending, history);
      endings := endings + [ending];
    }
  }

  lemma NothingYet(visits: seq<Visit>)
    ensures Honest(Unreadable, []) && Witnessed(visits, 0, [])
  {
  }

  lemma TruthfulLater(visit: Visit, ending: Ending, history: seq<Session>, longer: seq<Session>)
    requires history <= longer && Truthful(visit, ending, history)
    ensures Truthful(visit, ending, longer)
  {
    assert longer[..ending.upto] == history[..ending.upto];
    assert longer[ending.since..ending.upto] == history[ending.since..ending.upto];
  }

  lemma IsTruthful(visit: Visit, ending: Ending, history: seq<Session>)
    requires ending.since <= ending.upto == |history|
    requires ending.alive && ending.exit == 0 && visit.all ==>
      AllPassed(visit.world, visit.chosen, history[ending.since..])
    requires ending.alive && ending.exit == 0 ==> AllPassed(visit.world, visit.chosen, history)
    ensures Truthful(visit, ending, history)
  {
    assert history[..|history|] == history;
    assert history[ending.since..|history|] == history[ending.since..];
  }

  /** A run that succeeded, repeated against the same sources, compiles nothing, changes nothing
      and succeeds. */
  method Again(w: World, chosen: seq<Group>, all: bool, store: Store, history: seq<Session>,
               ghost good: (Group, Item) -> bool)
    returns (alive: bool, first: int, second: int, compiles: nat, once: Store, twice: Store)
    requires w.Proper()
    ensures alive && first == 0 ==> second == 0 && compiles == 0 && twice == once
  {
    var passes, more, spent, survived;
    alive, first, once, passes, spent := Gate(w, chosen, all, store, history, good);
    survived, second, twice, more, compiles := Gate(w, chosen, false, once, passes, good);
  }
}
