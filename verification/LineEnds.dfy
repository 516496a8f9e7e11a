/** Line ends on the way in and on the way out (`Tree.source` and the end of `Tree.apply` in
    `scripts/check_mutation_types.py`): a file with `\r\n` in it is edited with `\n` line ends and
    written with `\r\n` throughout. */
module LineEnds {
  /** A decoded file as the anchors are written, and whether it had `\r\n`. */
  datatype Source = Source(text: string, crlf: bool)

  predicate PairEnds(s: string, k: int) {
    0 < k < |s| && s[k - 1] == '\r' && s[k] == '\n'
  }

  /** `"\r\n" in decoded`. */
  predicate HasPair(s: string) {
    exists k | 0 < k < |s| :: PairEnds(s, k)
  }

  /** Every newline ends a pair. */
  predicate OnlyPairs(s: string) {
    forall k | 0 <= k < |s| && s[k] == '\n' :: PairEnds(s, k)
  }

  predicate StartsPair(s: string) {
    |s| >= 2 && s[0] == '\r' && s[1] == '\n'
  }

  /** `replace("\r\n", "\n")`. */
  function Joined(s: string): string {
    if s == [] then []
    else if StartsPair(s) then ['\n'] + Joined(s[2..])
    else [s[0]] + Joined(s[1..])
  }

  /** `replace("\n", "\r\n")`. */
  function Parted(t: string): string {
    if t == [] then []
    else (if t[0] == '\n' then ['\r', '\n'] else [t[0]]) + Parted(t[1..])
  }

  function Loaded(decoded: string): Source {
    if HasPair(decoded) then Source(Joined(decoded), true) else Source(decoded, false)
  }

  function Rendered(source: Source): string {
    if source.crlf then Parted(source.text) else source.text
  }

  // ----- which files survive the two replacements -----

  lemma HasPairStep(s: string)
    requires s != []
    ensures HasPair(s) <==> StartsPair(s) || HasPair(s[1..])
  {
    if HasPair(s) {
      var k :| 0 < k < |s| && PairEnds(s, k);
      if k > 1 { assert PairEnds(s[1..], k - 1); }
    }
    if StartsPair(s) { assert PairEnds(s, 1); }
    if HasPair(s[1..]) {
      var k :| 0 < k < |s[1..]| && PairEnds(s[1..], k);
      assert PairEnds(s, k + 1);
    }
  }

  lemma OnlyPairsStep(s: string)
    requires s != []
    ensures StartsPair(s) ==> (OnlyPairs(s) <==> OnlyPairs(s[2..]))
    ensures !StartsPair(s) ==> (OnlyPairs(s) <==> s[0] != '\n' && OnlyPairs(s[1..]))
  {
    var n := if StartsPair(s) then 2 else 1;
    if OnlyPairs(s) {
      forall k | 0 <= k < |s[n..]| && s[n..][k] == '\n' ensures PairEnds(s[n..], k) {
        assert PairEnds(s, n + k);
      }
    }
    if s[0] != '\n' && OnlyPairs(s[n..]) {
      forall k | 0 <= k < |s| && s[k] == '\n' ensures PairEnds(s, k) {
        if k >= n { assert PairEnds(s[n..], k - n); }
      }
    }
  }

  lemma NothingJoined()
    ensures Parted(Joined([])) == [] && OnlyPairs([])
  {
  }

  lemma BothStep(s: string)
    requires s != []
    ensures StartsPair(s) ==> (Parted(Joined(s)) == s <==> Parted(Joined(s[2..])) == s[2..])
    ensures !StartsPair(s) ==> (Parted(Joined(s)) == s <==> s[0] != '\n' && Parted(Joined(s[1..])) == s[1..])
  {
    hide Parted, Joined;
    if StartsPair(s) {
      JoinedStep(s);
      PartedStep('\n', Joined(s[2..]));
      Append(s, s[..2], s[2..], Parted(Joined(s[2..])));
    } else {
      JoinedStep(s);
      PartedStep(s[0], Joined(s[1..]));
      Append(s, [s[0]], s[1..], Parted(Joined(s[1..])));
    }
  }

  lemma JoinedStep(s: string)
    requires s != []
    ensures Joined(s) == if StartsPair(s) then ['\n'] + Joined(s[2..]) else [s[0]] + Joined(s[1..])
  {
  }

  lemma PartedStep(c: char, t: string)
    ensures Parted([c] + t) == (if c == '\n' then ['\r', '\n'] else [c]) + Parted(t)
  {
    assert ([c] + t)[1..] == t;
  }

  lemma Append(s: string, head: string, tail: string, other: string)
    requires s == head + tail
    ensures head + other == s <==> other == tail
  {
    if head + other == s {
      assert (head + other)[|head|..] == other && (head + tail)[|head|..] == tail;
    }
  }

  lemma {:induction false} PartedUndoesJoinedExactlyWhen(s: string)
    ensures Parted(Joined(s)) == s <==> OnlyPairs(s)
  {
    hide Parted, Joined, OnlyPairs;
    if s == [] {
      NothingJoined();
    } else {
      OnlyPairsStep(s);
      BothStep(s);
      PartedUndoesJoinedExactlyWhen(if StartsPair(s) then s[2..] else s[1..]);
    }
  }

  lemma {:induction false} JoinedUndoesParted(t: string)
    ensures Joined(Parted(t)) == t
    ensures Parted(t) != [] ==> Parted(t)[0] != '\n'
  {
    if t != [] {
      JoinedUndoesParted(t[1..]);
      var rest := Parted(t[1..]);
      assert (['\r', '\n'] + rest)[2..] == rest;
      assert ([t[0]] + rest)[1..] == rest;
    }
  }

  /** In a written file every newline ends a pair. */
  lemma {:induction false} PartedHasOnlyPairs(t: string)
    ensures OnlyPairs(Parted(t))
  {
    if t != [] {
      var rest := Parted(t[1..]);
      PartedHasOnlyPairs(t[1..]);
      JoinedUndoesParted(t[1..]);
      OnlyPairsStep(Parted(t));
      assert (['\r', '\n'] + rest)[2..] == rest && ([t[0]] + rest)[1..] == rest;
    }
  }

  /** What is left from `k` on when every `\r` before a `\n` goes, and nothing else. */
  function Sieved(s: string, k: nat): string
    decreases |s| - k
  {
    if k >= |s| then []
    else (if k + 1 < |s| && s[k] == '\r' && s[k + 1] == '\n' then [] else [s[k]]) + Sieved(s, k + 1)
  }

  lemma {:induction false} JoinedIsSieved(s: string, k: nat)
    requires k <= |s|
    ensures Joined(s[k..]) == Sieved(s, k)
    decreases |s| - k
  {
    if k < |s| {
      JoinedIsSieved(s, k + 1);
      JoinedStep(s[k..]);
      assert s[k..][1..] == s[k + 1..];
      if StartsPair(s[k..]) {
        assert s[k..][2..] == s[k + 2..] && s[k + 1..][1..] == s[k + 2..];
        JoinedIsSieved(s, k + 2);
        JoinedStep(s[k + 1..]);
      }
    }
  }

  lemma {:induction false} PartedHasPair(t: string)
    ensures HasPair(Parted(t)) <==> '\n' in t
    ensures '\n' !in t ==> Parted(t) == t
  {
    if t != [] {
      PartedHasPair(t[1..]);
      JoinedUndoesParted(t[1..]);
      var rest := Parted(t[1..]);
      HasPairStep(Parted(t));
      assert ([t[0]] + rest)[1..] == rest;
    }
  }

  lemma {:induction false} JoinedIsShorter(s: string)
    ensures |Joined(s)| <= |s|
    ensures HasPair(s) ==> |Joined(s)| < |s|
  {
    if s != [] {
      HasPairStep(s);
      JoinedIsShorter(s[1..]);
      if StartsPair(s) { JoinedIsShorter(s[2..]); }
    }
  }

  /** A file that is read and written without an edit is the same exactly when its line ends are
      of one kind: no `\r\n` at all, or no `\n` without it. */
  lemma UneditedIsKeptExactlyWhen(decoded: string)
    ensures Rendered(Loaded(decoded)) == decoded <==> !HasPair(decoded) || OnlyPairs(decoded)
  {
    PartedUndoesJoinedExactlyWhen(decoded);
  }

  /** A written file reads back as the text that was written exactly when it is given `\r\n` line
      ends, or its text has none of its own. */
  lemma WrittenIsReadBackExactlyWhen(source: Source)
    ensures Loaded(Rendered(source)).text == source.text <==> source.crlf || !HasPair(source.text)
  {
    JoinedUndoesParted(source.text);
    PartedHasPair(source.text);
    JoinedIsShorter(source.text);
  }

  // ----- lines are counted alike in both -----

  function Newlines(s: string): nat {
    if s == [] then 0 else (if s[0] == '\n' then 1 else 0) + Newlines(s[1..])
  }

  /** The written file has a newline for each one of the text, before any place in it. */
  lemma {:induction false} PartedKeepsLines(t: string, k: nat)
    requires k <= |t|
    ensures Parted(t) == Parted(t[..k]) + Parted(t[k..]) && Newlines(Parted(t[..k])) == Newlines(t[..k])
  {
    hide Parted, Newlines;
    if k == 0 {
      NoLines();
      assert t[..k] == [] && t[k..] == t;
    } else {
      var head, tail := t[1..k], t[k..];
      assert t[1..][..k - 1] == head && t[1..][k - 1..] == tail;
      PartedKeepsLines(t[1..], k - 1);
      PartedStep(t[0], head + tail);
      PartedStep(t[0], head);
      assert t == [t[0]] + (head + tail) && t[..k] == [t[0]] + head && t[1..] == head + tail;
      NewlinesStep(t[0], head);
      NewlinesStep(t[0], Parted(head));
      NewlinesStep('\r', ['\n'] + Parted(head));
      assert ['\r', '\n'] + Parted(head) == ['\r'] + (['\n'] + Parted(head));
    }
  }

  lemma NoLines()
    ensures Parted([]) == [] && Newlines([]) == 0
  {
  }

  lemma NewlinesStep(c: char, s: string)
    ensures Newlines([c] + s) == (if c == '\n' then 1 else 0) + Newlines(s)
  {
    assert ([c] + s)[1..] == s;
  }
}
