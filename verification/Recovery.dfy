/** The write-ahead backup that a killed run is recovered from (`Tree` and `recover` in
    `scripts/check_mutation_types.py`, and the order `main` calls them in).

    Every write to the disk may be the last one: it is done, or it is not begun, or the process
    dies in the middle and leaves the file in pieces.  A method that returns `alive == false`
    was killed, so a contract without that condition holds for a kill between any two writes
    and inside any one of them. */
module Recovery {
  import opened Splicing
  import opened LineEnds

  type Byte = b: int | 0 <= b < 256
  type Bytes = seq<Byte>

  /** A file of the working tree: the directory its checker runs in, and its path from there. */
  datatype Place = Place(base: string, path: string)

  /** `digest(path.encode())`, the name of a backup.  SHA-256 is taken to be injective. */
  datatype Digest = Digest(path: string)

  /** `types-inflight.json`; `Torn` when it cannot be read. */
  datatype Record = Absent | Torn | Held(base: string, paths: seq<string>)

  /** What survives a kill. */
  datatype State = State(files: map<Place, Bytes>, backups: map<Digest, Bytes>, record: Record)

  // ----- the invariant -----

  ghost predicate Named(record: Record, place: Place) {
    record.Held? && place.base == record.base && place.path in record.paths
  }

  /** Files that the record does not name are as they were, and every file that it names has its
      bytes in the backup.  Without a readable record, nothing has been touched. */
  ghost predicate Safe(s: State, orig: map<Place, Bytes>) {
    && s.files.Keys == orig.Keys
    && (forall q | q in orig && !Named(s.record, q) :: s.files[q] == orig[q])
    && (s.record.Held? ==> forall p | p in s.record.paths ::
         Place(s.record.base, p) in orig && Digest(p) in s.backups
         && s.backups[Digest(p)] == orig[Place(s.record.base, p)])
  }

  // ----- what a completed recovery does, to any disk at all -----

  function PutBack(files: map<Place, Bytes>, backups: map<Digest, Bytes>, base: string, paths: seq<string>)
    : map<Place, Bytes>
  {
    if paths == [] then files
    else
      var n := |paths| - 1;
      var before := PutBack(files, backups, base, paths[..n]);
      if Digest(paths[n]) in backups then before[Place(base, paths[n]) := backups[Digest(paths[n])]] else before
  }

  function Recovered(s: State): State {
    if s.record.Held? then
      State(PutBack(s.files, s.backups, s.record.base, s.record.paths), s.backups, Absent)
    else s
  }

  /** One of the notes is a `[FAIL]`, and `main` goes no further. */
  predicate Refuses(s: State) {
    || s.record.Torn?
    || (s.record.Held? && exists k | 0 <= k < |s.record.paths| :: Digest(s.record.paths[k]) !in s.backups)
  }

  lemma PutBackIs(files: map<Place, Bytes>, backups: map<Digest, Bytes>, base: string, paths: seq<string>, q: Place)
    ensures var r := PutBack(files, backups, base, paths);
      if q.base == base && q.path in paths && Digest(q.path) in backups
      then q in r && r[q] == backups[Digest(q.path)]
      else (q in r <==> q in files) && (q in files ==> r[q] == files[q])
  {
    if paths != [] {
      PutBackIs(files, backups, base, paths[..|paths| - 1], q);
    }
  }

  /** From every state that a kill can leave behind, recovery gives back every byte, and it
      refuses only when the record is torn. */
  lemma SafeRecovers(s: State, orig: map<Place, Bytes>)
    requires Safe(s, orig)
    ensures Recovered(s).files == orig && Safe(Recovered(s), orig)
    ensures Refuses(s) <==> s.record.Torn?
  {
    if s.record.Held? {
      var r := Recovered(s).files;
      forall q ensures (q in r <==> q in orig) && (q in orig ==> r[q] == orig[q]) {
        PutBackIs(s.files, s.backups, s.record.base, s.record.paths, q);
        assert q.base == s.record.base ==> Place(s.record.base, q.path) == q;
      }
      assert r.Keys == orig.Keys;
    } else {
      assert s.files == orig;
    }
  }

  /** Recovering twice is recovering once. */
  lemma RecoveredOnce(s: State)
    ensures Recovered(Recovered(s)) == Recovered(s)
    ensures Recovered(s).record.Held? == false
  {
  }

  /** For any disk whatever with a readable record: recovery restores `orig` exactly when each
      file either has its original bytes in a backup the record names, or lacks one and was
      never changed. */
  lemma RecoveryRestoresExactlyWhen(s: State, orig: map<Place, Bytes>)
    requires s.record.Held? && s.files.Keys == orig.Keys
    requires forall p | p in s.record.paths :: Place(s.record.base, p) in orig
    ensures Recovered(s).files == orig <==> forall q | q in orig ::
      orig[q] == if Named(s.record, q) && Digest(q.path) in s.backups then s.backups[Digest(q.path)] else s.files[q]
  {
    var r := Recovered(s).files;
    forall q ensures var backed := Named(s.record, q) && Digest(q.path) in s.backups;
      && (q in r <==> q in orig)
      && (q in orig ==> r[q] == if backed then s.backups[Digest(q.path)] else s.files[q])
    {
      PutBackIs(s.files, s.backups, s.record.base, s.record.paths, q);
      assert q.base == s.record.base ==> Place(s.record.base, q.path) == q;
    }
    if forall q | q in orig :: r[q] == orig[q] {
      assert r.Keys == orig.Keys;
      assert r == orig;
    }
  }

  /** A backup somebody deleted is reported once.  The record is removed all the same, so the
      next run has nothing to report and starts on a tree that still holds the edit. */
  lemma MissingBackupIsReportedOnce(s: State, p: string)
    requires s.record.Held? && p in s.record.paths && Digest(p) !in s.backups
    ensures Refuses(s) && !Refuses(Recovered(s))
    ensures var q := Place(s.record.base, p);
      (q in s.files <==> q in Recovered(s).files) && (q in s.files ==> Recovered(s).files[q] == s.files[q])
  {
    var k :| 0 <= k < |s.record.paths| && s.record.paths[k] == p;
    PutBackIs(s.files, s.backups, s.record.base, s.record.paths, Place(s.record.base, p));
  }

  // ----- the disk -----

  class Disk {
    var files: map<Place, Bytes>
    var backups: map<Digest, Bytes>
    var record: Record

    function Now(): State
      reads this
    {
      State(files, backups, record)
    }

    /** `write_newer`. */
    method Write(place: Place, bytes: Bytes) returns (alive: bool)
      modifies this
      ensures backups == old(backups) && record == old(record)
      ensures alive ==> files == old(files)[place := bytes]
      ensures !alive ==> old(files).Keys <= files.Keys <= old(files).Keys + {place}
      ensures !alive ==> forall q | q in old(files) && q != place :: files[q] == old(files)[q]
    {
      alive := *;
      if alive {
        files := files[place := bytes];
      } else if * {
        var junk: Bytes := *;
        files := files[place := junk];
      }
    }

    method WriteBackup(name: Digest, bytes: Bytes) returns (alive: bool)
      modifies this
      ensures files == old(files) && record == old(record)
      ensures alive ==> backups == old(backups)[name := bytes]
      ensures !alive ==> old(backups).Keys <= backups.Keys <= old(backups).Keys + {name}
      ensures !alive ==> forall d | d in old(backups) && d != name :: backups[d] == old(backups)[d]
    {
      alive := *;
      if alive {
        backups := backups[name := bytes];
      } else if * {
        var junk: Bytes := *;
        backups := backups[name := junk];
      }
    }

    method WriteRecord(base: string, paths: seq<string>) returns (alive: bool)
      modifies this
      ensures files == old(files) && backups == old(backups)
      ensures if alive then record == Held(base, paths) else record in {old(record), Torn}
    {
      alive := *;
      if alive {
        record := Held(base, paths);
      } else if * {
        record := Torn;
      }
    }

    method UnlinkRecord() returns (alive: bool)
      modifies this
      ensures files == old(files) && backups == old(backups)
      ensures if alive then record == Absent else record == old(record)
    {
      alive := *;
      if alive {
        record := Absent;
      }
    }
  }

  // ----- a run puts back what a killed one left -----

  /** `recover`. */
  method Recover(disk: Disk, ghost orig: map<Place, Bytes>) returns (alive: bool, refused: bool)
    modifies disk
    ensures alive ==> disk.Now() == Recovered(old(disk.Now())) && refused == Refuses(old(disk.Now()))
    ensures old(Safe(disk.Now(), orig)) ==> Safe(disk.Now(), orig)
    ensures old(Safe(disk.Now(), orig)) && alive ==>
      disk.files == orig && refused == disk.record.Torn? && !disk.record.Held?
    ensures old(disk.record.Torn?) ==> disk.Now() == old(disk.Now()) && alive && refused
  {
    ghost var start := disk.Now();
    alive, refused := true, false;
    if disk.record.Absent? {
      return;
    }
    if disk.record.Torn? {
      refused := true;
      return;
    }
    var base, paths := disk.record.base, disk.record.paths;
    for k := 0 to |paths|
      invariant disk.backups == start.backups && disk.record == start.record
      invariant disk.files == PutBack(start.files, start.backups, base, paths[..k])
      invariant refused <==> exists j | 0 <= j < k :: Digest(paths[j]) !in start.backups
      invariant Safe(start, orig) ==> Safe(disk.Now(), orig)
    {
      assert paths[..k + 1][..k] == paths[..k];
      var name := Digest(paths[k]);
      if name !in disk.backups {
        refused := true;
        continue;
      }
      alive := disk.Write(Place(base, paths[k]), disk.backups[name]);
      if !alive {
        return;
      }
    }
    assert paths[..|paths|] == paths;
    if Safe(start, orig) { SafeRecovers(start, orig); }
    alive := disk.UnlinkRecord();
  }

  // ----- applying a batch and taking it back -----

  /** What is encoded is decoded to the same text. */
  ghost predicate Inverse(decode: Bytes -> string, encode: string -> Bytes) {
    forall s :: decode(encode(s)) == s
  }

  /** What a file was, with its edits and its own line ends: in a file with `\r\n` every newline has
      them again, and otherwise nothing but the edits is changed. */
  ghost predicate Delivered(decode: Bytes -> string, raw: Bytes, bytes: Bytes, items: seq<Edit>) {
    var before, after := decode(raw), decode(bytes);
    if HasPair(before) then OnlyPairs(after) && Joined(after) == Spliced(Joined(before), items)
    else after == Spliced(before, items)
  }

  ghost predicate AllDelivered(decode: Bytes -> string, orig: map<Place, Bytes>, files: map<Place, Bytes>, base: string,
                               edits: map<string, seq<Edit>>) {
    forall p | p in edits ::
      && Place(base, p) in orig && Place(base, p) in files
      && Delivered(decode, orig[Place(base, p)], files[Place(base, p)], edits[p])
  }

  /** Where a batch is written: one checker's directory, with the files read from it. */
  class Tree {
    const base: string
    const decode: Bytes -> string
    const encode: string -> Bytes
    var clean: map<string, Bytes>
    var text: map<string, Source>
    var dirty: set<string>

    constructor (base: string, decode: Bytes -> string, encode: string -> Bytes)
      ensures this.base == base && this.decode == decode && this.encode == encode
      ensures clean == map[] && text == map[] && dirty == {}
    {
      this.base, this.decode, this.encode := base, decode, encode;
      clean, text, dirty := map[], map[], {};
    }

    /** The tree remembers the original bytes of the files it has read. */
    ghost predicate Remembers(orig: map<Place, Bytes>)
      reads `clean, `text
    {
      && clean.Keys == text.Keys
      && forall p | p in clean ::
           Place(base, p) in orig && clean[p] == orig[Place(base, p)] && text[p] == Loaded(decode(clean[p]))
    }

    /** `Tree.source`; reading fails, as `OSError` does, when there is no such file. */
    method Read(disk: Disk, path: string, ghost orig: map<Place, Bytes>) returns (found: bool)
      modifies `clean, `text
      ensures found <==> path in old(text) || Place(base, path) in disk.files
      ensures found && path !in old(text) ==>
        var raw := disk.files[Place(base, path)];
        clean == old(clean)[path := raw] && text == old(text)[path := Loaded(decode(raw))]
      ensures !found || path in old(text) ==> clean == old(clean) && text == old(text)
      ensures old(Remembers(orig)) && disk.files == orig ==>
        Remembers(orig) && old(clean).Keys <= clean.Keys && (path in clean <==> found)
    {
      found := true;
      if path !in text {
        if Place(base, path) !in disk.files {
          return false;
        }
        var raw := disk.files[Place(base, path)];
        clean := clean[path := raw];
        text := text[path := Loaded(decode(raw))];
      }
    }

    /** What the files of a batch hold while it is applied. */
    function Mutated(edits: map<string, seq<Edit>>): map<string, Bytes>
      reads `text
      requires edits.Keys <= text.Keys
    {
      map p | p in edits :: encode(Rendered(Source(Spliced(text[p].text, edits[p]), text[p].crlf)))
    }

    /** The first loop of `apply`. */
    method BackUp(disk: Disk, held: seq<string>) returns (alive: bool)
      requires forall p | p in held :: p in clean
      modifies disk
      ensures disk.files == old(disk.files) && disk.record == old(disk.record)
      ensures alive ==> forall p | p in held :: Digest(p) in disk.backups && disk.backups[Digest(p)] == clean[p]
    {
      alive := true;
      for k := 0 to |held|
        invariant disk.files == old(disk.files) && disk.record == old(disk.record)
        invariant forall p | p in held[..k] :: Digest(p) in disk.backups && disk.backups[Digest(p)] == clean[p]
      {
        alive := disk.WriteBackup(Digest(held[k]), clean[held[k]]);
        if !alive {
          return;
        }
        assert held[..k + 1] == held[..k] + [held[k]];
      }
      assert held[..|held|] == held;
    }

    /** The text of one file with its edits, as bytes. */
    method Render(edits: map<string, seq<Edit>>, path: string, ghost orig: map<Place, Bytes>) returns (bytes: Bytes)
      requires Remembers(orig) && edits.Keys <= clean.Keys && path in edits
      ensures edits.Keys <= text.Keys && bytes == Mutated(edits)[path] && path in Mutated(edits)
      ensures Place(base, path) in orig
    {
      var mutated := Splice(text[path].text, edits[path]);
      bytes := encode(Rendered(Source(mutated, text[path].crlf)));
    }

    /** What was written reads back as the text with its edits, unless an edit brings `\r\n` into a
        file that had none. */
    lemma MutatedIsReadBackExactlyWhen(edits: map<string, seq<Edit>>, p: string)
      requires edits.Keys <= text.Keys && p in edits && forall s :: decode(encode(s)) == s
      ensures Loaded(decode(Mutated(edits)[p])).text == Spliced(text[p].text, edits[p])
        <==> text[p].crlf || !HasPair(Spliced(text[p].text, edits[p]))
    {
      WrittenIsReadBackExactlyWhen(Source(Spliced(text[p].text, edits[p]), text[p].crlf));
    }

    /** The bytes for a file deliver its edits. */
    lemma MutatedIsDelivered(edits: map<string, seq<Edit>>, p: string)
      requires edits.Keys <= text.Keys && p in edits && p in clean && text[p] == Loaded(decode(clean[p]))
      requires Inverse(decode, encode)
      ensures Delivered(decode, clean[p], Mutated(edits)[p], edits[p])
    {
      var before, mutated := decode(clean[p]), Spliced(text[p].text, edits[p]);
      assert decode(encode(Rendered(Source(mutated, text[p].crlf)))) == Rendered(Source(mutated, text[p].crlf));
      hide Spliced, Joined, Parted, OnlyPairs, HasPair;
      JoinedUndoesParted(mutated);
      PartedHasOnlyPairs(mutated);
    }

    lemma AllAreDelivered(edits: map<string, seq<Edit>>, files: map<Place, Bytes>, orig: map<Place, Bytes>)
      requires Remembers(orig) && edits.Keys <= clean.Keys == text.Keys && Inverse(decode, encode)
      requires Written(files, orig, base, Mutated(edits), edits.Keys)
      ensures AllDelivered(decode, orig, files, base, edits)
    {
      hide Delivered, Mutated;
      forall p | p in edits
        ensures Place(base, p) in orig && Place(base, p) in files
        ensures Delivered(decode, orig[Place(base, p)], files[Place(base, p)], edits[p])
      {
        MutatedIsDelivered(edits, p);
      }
    }

    /** The second loop of `apply`. */
    method WriteAll(disk: Disk, edits: map<string, seq<Edit>>, held: seq<string>, ghost orig: map<Place, Bytes>)
      returns (alive: bool)
      requires Remembers(orig) && edits.Keys <= clean.Keys == text.Keys && dirty == {}
      requires forall p :: p in held <==> p in edits
      requires disk.files == orig && disk.record == Held(base, held) && Safe(disk.Now(), orig)
      modifies disk, `dirty
      ensures disk.record == Held(base, held) && Safe(disk.Now(), orig)
      ensures alive ==>
        edits.Keys <= text.Keys && Written(disk.files, orig, base, Mutated(edits), edits.Keys) && dirty == edits.Keys
    {
      hide Safe, Named, Written, Remembers, Mutated;
      alive := true;
      ghost var target := Mutated(edits);
      NothingWritten(disk.files, base, target);
      for k := 0 to |held|
        invariant disk.record == Held(base, held) && Safe(disk.Now(), orig)
        invariant forall p :: p in dirty <==> p in held[..k]
        invariant Written(disk.files, orig, base, target, dirty)
      {
        var path := held[k];
        ghost var before := disk.Now();
        var bytes := Render(edits, path, orig);
        assert held[..k + 1] == held[..k] + [path];
        alive := disk.Write(Place(base, path), bytes);
        SafeToWrite(before, disk.Now(), orig, base, held, path);
        if !alive {
          return;
        }
        WrittenOne(before.files, orig, base, target, dirty, path);
        dirty := dirty + {path};
      }
      assert held[..|held|] == held;
      assert dirty == edits.Keys;
    }

    /** `Tree.apply`: the backups, then the record, then the files. */
    method Apply(disk: Disk, edits: map<string, seq<Edit>>, ghost orig: map<Place, Bytes>) returns (alive: bool)
      requires Remembers(orig) && edits.Keys <= clean.Keys && dirty == {}
      requires disk.files == orig && disk.record.Absent?
      modifies disk, `dirty
      ensures Safe(disk.Now(), orig)
      ensures alive ==>
        edits.Keys <= text.Keys && Written(disk.files, orig, base, Mutated(edits), edits.Keys) && dirty == edits.Keys
      ensures alive ==>
        disk.record.Held? && disk.record.base == base && forall p :: p in disk.record.paths <==> p in edits
      ensures alive && Inverse(decode, encode) ==> AllDelivered(decode, orig, disk.files, base, edits)
    {
      var held := Listed(edits.Keys);
      alive := BackUp(disk, held);
      if alive {
        alive := disk.WriteRecord(base, held);
      }
      if alive {
        alive := WriteAll(disk, edits, held, orig);
        if alive && Inverse(decode, encode) {
          hide Safe, Written, AllDelivered;
          AllAreDelivered(edits, disk.files, orig);
        }
      }
    }

    /** `Tree.restore`. */
    method Restore(disk: Disk, ghost orig: map<Place, Bytes>) returns (alive: bool)
      requires Remembers(orig) && dirty <= clean.Keys && Safe(disk.Now(), orig) && !disk.record.Torn?
      requires forall p | p in dirty :: Named(disk.record, Place(base, p))
      requires ChangedOnly(disk.files, orig, base, dirty)
      modifies disk, `dirty
      ensures Safe(disk.Now(), orig)
      ensures alive ==> disk.files == orig && disk.record.Absent? && dirty == {}
    {
      var todo := Listed(dirty);
      ghost var left := dirty;
      ghost var record := disk.record;
      for k := 0 to |todo|
        invariant Safe(disk.Now(), orig) && disk.record == record
        invariant forall p :: p in dirty ==> p in todo[k..] || p !in left
        invariant left <= dirty && ChangedOnly(disk.files, orig, base, left)
      {
        var path := todo[k];
        ghost var before := disk.Now();
        assert Named(record, Place(base, path)) && clean[path] == orig[Place(base, path)] && Place(base, path) in orig;
        hide *;
        assert todo[k..] == [path] + todo[k + 1..];
        alive := disk.Write(Place(base, path), clean[path]);
        SafeToWrite(before, disk.Now(), orig, record.base, record.paths, path);
        if !alive {
          return;
        }
        ChangedLess(before.files, orig, base, left, path);
        left := left - {path};
      }
      assert left == {};
      NothingChanged(disk.files, orig, base);
      dirty := {};
      alive := disk.UnlinkRecord();
    }
  }

  /** The tree when the files `done` have been written. */
  ghost predicate Written(files: map<Place, Bytes>, orig: map<Place, Bytes>, base: string, target: map<string, Bytes>,
                          done: set<string>) {
    && done <= target.Keys && files.Keys == orig.Keys
    && forall q | q in orig :: files[q] == if q.base == base && q.path in done then target[q.path] else orig[q]
  }

  lemma NothingWritten(orig: map<Place, Bytes>, base: string, target: map<string, Bytes>)
    ensures Written(orig, orig, base, target, {})
  {
  }

  lemma WrittenOne(files: map<Place, Bytes>, orig: map<Place, Bytes>, base: string, target: map<string, Bytes>,
                   done: set<string>, path: string)
    requires Written(files, orig, base, target, done) && path in target && Place(base, path) in orig
    ensures Written(files[Place(base, path) := target[path]], orig, base, target, done + {path})
  {
  }

  /** Outside the files `changed` the tree is the original one. */
  ghost predicate ChangedOnly(files: map<Place, Bytes>, orig: map<Place, Bytes>, base: string, changed: set<string>) {
    files.Keys == orig.Keys && forall q | q in orig && files[q] != orig[q] :: q.base == base && q.path in changed
  }

  lemma ChangedLess(files: map<Place, Bytes>, orig: map<Place, Bytes>, base: string, changed: set<string>, path: string)
    requires ChangedOnly(files, orig, base, changed) && Place(base, path) in orig
    ensures ChangedOnly(files[Place(base, path) := orig[Place(base, path)]], orig, base, changed - {path})
  {
  }

  lemma NothingChanged(files: map<Place, Bytes>, orig: map<Place, Bytes>, base: string)
    requires ChangedOnly(files, orig, base, {})
    ensures files == orig
  {
  }

  /** A file that the record names may hold anything. */
  lemma SafeToWrite(s: State, t: State, orig: map<Place, Bytes>, base: string, paths: seq<string>, path: string)
    requires Safe(s, orig) && s.record == Held(base, paths) && path in paths
    requires t.backups == s.backups && t.record == s.record
    requires s.files.Keys <= t.files.Keys <= s.files.Keys + {Place(base, path)}
    requires forall q | q in s.files && q != Place(base, path) :: t.files[q] == s.files[q]
    ensures Safe(t, orig)
  {
  }

  /** The files of a batch in some order; the source sorts them, and nothing rests on it. */
  method Listed(paths: set<string>) returns (list: seq<string>)
    ensures forall p :: p in list <==> p in paths
  {
    list := [];
    var todo := paths;
    while todo != {}
      invariant forall p :: p in paths <==> p in list || p in todo
      invariant todo <= paths
    {
      var p :| p in todo;
      list, todo := list + [p], todo - {p};
    }
  }

  // ----- runs -----

  /** `check`: the batch is written, the checker reads the tree, the batch is taken back. */
  method CheckBatch(tree: Tree, disk: Disk, edits: map<string, seq<Edit>>, ghost orig: map<Place, Bytes>)
    returns (alive: bool, seen: map<Place, Bytes>)
    requires tree.Remembers(orig) && edits.Keys <= tree.clean.Keys == tree.text.Keys && tree.dirty == {}
    requires disk.files == orig && disk.record.Absent?
    modifies disk, tree`dirty
    ensures Safe(disk.Now(), orig)
    ensures alive ==> disk.files == orig && disk.record.Absent? && tree.dirty == {}
    ensures alive ==> Written(seen, orig, tree.base, tree.Mutated(edits), edits.Keys)
    ensures alive && Inverse(tree.decode, tree.encode) ==> AllDelivered(tree.decode, orig, seen, tree.base, edits)
  {
    hide Safe, AllDelivered;
    seen := map[];
    alive := tree.Apply(disk, edits, orig);
    if !alive {
      return;
    }
    seen := disk.files;
    alive := tree.Restore(disk, orig);
  }

  /** `collect`, as far as it reads the sources of the batches. */
  method Collect(tree: Tree, disk: Disk, batches: seq<map<string, seq<Edit>>>, ghost orig: map<Place, Bytes>)
    requires tree.Remembers(orig) && disk.files == orig
    modifies tree`clean, tree`text
    ensures tree.Remembers(orig)
    ensures forall k, p | 0 <= k < |batches| && p in batches[k] && Place(tree.base, p) in orig :: p in tree.clean
  {
    for k := 0 to |batches|
      invariant tree.Remembers(orig)
      invariant forall i, p | 0 <= i < k && p in batches[i] && Place(tree.base, p) in orig :: p in tree.clean
    {
      var paths := Listed(batches[k].Keys);
      for j := 0 to |paths|
        invariant tree.Remembers(orig)
        invariant forall i, p | 0 <= i < k && p in batches[i] && Place(tree.base, p) in orig :: p in tree.clean
        invariant forall p | p in paths[..j] && Place(tree.base, p) in orig :: p in tree.clean
      {
        assert paths[..j + 1] == paths[..j] + [paths[j]];
        var found := tree.Read(disk, paths[j], orig);
      }
      assert paths[..|paths|] == paths;
    }
  }

  /** A sweep, as far as the tree goes: one batch after another. */
  method SweepTree(tree: Tree, disk: Disk, batches: seq<map<string, seq<Edit>>>, ghost orig: map<Place, Bytes>)
    returns (alive: bool)
    requires tree.Remembers(orig) && tree.dirty == {}
    requires disk.files == orig && disk.record.Absent? && Safe(disk.Now(), orig)
    modifies disk, tree`dirty
    ensures Safe(disk.Now(), orig)
    ensures alive ==> disk.files == orig && disk.record.Absent? && tree.dirty == {}
  {
    hide Safe;
    alive := true;
    for k := 0 to |batches|
      invariant tree.Remembers(orig) && tree.dirty == {}
      invariant alive && disk.files == orig && disk.record.Absent? && Safe(disk.Now(), orig)
    {
      if batches[k].Keys <= tree.clean.Keys {
        var seen;
        alive, seen := CheckBatch(tree, disk, batches[k], orig);
        if !alive {
          return;
        }
      }
    }
  }

  /** One checker's directory and the batches written there. */
  datatype Job = Job(base: string, batches: seq<map<string, seq<Edit>>>)

  /** A run: its two checkers, and which of them are asked, in order. */
  datatype Plan = Plan(rust: Job, js: Job, rusts: seq<bool>)

  /** `main`, as far as the trees go: recovery comes before anything is read, a recovery that
      refuses ends the run, and only then are batches written.  The sources of both checkers are
      read once, before anything is written, and both keep their backups in one folder. */
  method Run(disk: Disk, plan: Plan, decode: Bytes -> string, encode: string -> Bytes, ghost orig: map<Place, Bytes>)
    returns (alive: bool, refused: bool)
    requires Safe(disk.Now(), orig)
    modifies disk
    ensures Safe(disk.Now(), orig)
    ensures alive ==> disk.files == orig && refused == disk.record.Torn? && !disk.record.Held?
    ensures old(disk.record.Torn?) ==> disk.Now() == old(disk.Now()) && alive && refused
  {
    alive, refused := Recover(disk, orig);
    if !alive || refused {
      return;
    }
    hide Safe;
    var rust := new Tree(plan.rust.base, decode, encode);
    var js := new Tree(plan.js.base, decode, encode);
    Collect(rust, disk, plan.rust.batches, orig);
    Collect(js, disk, plan.js.batches, orig);
    for k := 0 to |plan.rusts|
      invariant rust != js && rust.Remembers(orig) && js.Remembers(orig) && rust.dirty == {} && js.dirty == {}
      invariant fresh(rust) && fresh(js)
      invariant alive && disk.files == orig && disk.record.Absent? && Safe(disk.Now(), orig)
    {
      if plan.rusts[k] {
        alive := SweepTree(rust, disk, plan.rust.batches, orig);
      } else {
        alive := SweepTree(js, disk, plan.js.batches, orig);
      }
      if !alive {
        return;
      }
    }
  }

  /** Any number of runs, each killed wherever it may be, and then a recovery. */
  method Lifetime(disk: Disk, plans: seq<Plan>, decode: Bytes -> string, encode: string -> Bytes,
                  ghost orig: map<Place, Bytes>)
    returns (alive: bool, refused: bool)
    requires disk.files == orig && disk.record.Absent?
    modifies disk
    ensures Safe(disk.Now(), orig)
    ensures alive ==> disk.files == orig
    ensures alive && !refused ==> disk.record.Absent?
  {
    for k := 0 to |plans|
      invariant Safe(disk.Now(), orig)
    {
      var survived, stopped := Run(disk, plans[k], decode, encode, orig);
    }
    alive, refused := Recover(disk, orig);
  }
}
