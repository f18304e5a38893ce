/** Following a log by the cursor of an earlier query (src/cli/mod.rs:738-819): when
    the later query answers right although it read other records than the earlier. */
module LogFollow {
  import opened Outcomes
  import opened Bytes
  import opened LogQuery

  type Answer = Result<seq<Stamped>, QueryError>

  // ---------- The answer to a cursor ----------

  /** A record of the last tail + 1 that the cursor names. */
  ghost predicate Names(kept: seq<Entry>, tail: nat, c: Cursor, hash: Hash, q: nat) {
    q < |kept| && q + tail + 1 >= |kept| && CursorOf(kept, q, hash) == c
  }

  lemma SameCursor(kept: seq<Entry>, i: nat, j: nat, hash: Hash)
    requires i < |kept| && j < |kept| && CursorOf(kept, i, hash) == CursorOf(kept, j, hash)
    ensures i == j
  {
    if i < j { CursorsDiffer(kept, i, j, hash); }
    if j < i { CursorsDiffer(kept, j, i, hash); }
  }

  lemma AnswerNamed(kept: seq<Entry>, tail: nat, c: Cursor, hash: Hash, q: nat, r: Answer)
    requires Names(kept, tail, c, hash, q)
    ensures Answers(Stamp(kept, hash), tail, Some(c), r) <==> r == Ok(Stamp(kept, hash)[q + 1..])
  {
    hide CursorOf;
    var all := Stamp(kept, hash);
    assert all[q].cursor == c;
    forall k | 0 <= k < |all| && all[k].cursor == c ensures k == q {
      SameCursor(kept, k, q, hash);
    }
  }

  lemma AnswerGap(kept: seq<Entry>, tail: nat, c: Cursor, hash: Hash, r: Answer)
    requires forall q :: !Names(kept, tail, c, hash, q)
    ensures Answers(Stamp(kept, hash), tail, Some(c), r) <==> r == Err(FollowGap)
  {
    hide CursorOf;
    var all := Stamp(kept, hash);
    forall k | 0 <= k < |all| && k + tail + 1 >= |all| ensures all[k].cursor != c {
      assert !Names(kept, tail, c, hash, k);
    }
  }

  // ---------- Occurrences ----------

  lemma {:induction false} OccurrencesAppend(a: seq<Entry>, b: seq<Entry>, h: string, hash: Hash)
    ensures Occurrences(a + b, h, hash) == Occurrences(a, h, hash) + Occurrences(b, h, hash)
  {
    if b == [] {
      assert a + b == a;
    } else {
      OccurrencesAppend(a, b[..|b| - 1], h, hash);
      assert (a + b)[..|a + b| - 1] == a + b[..|b| - 1];
    }
  }

  lemma {:induction false} OccurrencesNone(entries: seq<Entry>, h: string, hash: Hash)
    ensures Occurrences(entries, h, hash) == 0 <==> forall i :: 0 <= i < |entries| ==> hash(entries[i].bytes) != h
  {
    if entries != [] {
      var front := entries[..|entries| - 1];
      OccurrencesNone(front, h, hash);
      assert forall i :: 0 <= i < |front| ==> front[i] == entries[i];
    }
  }

  // ---------- A drop at the front ----------

  /** A cursor counts from the oldest record read, so once rotation has dropped the
      front of the log it still names its record exactly when no dropped record had
      the same content. */
  lemma CursorSurvives(dropped: seq<Entry>, kept: seq<Entry>, i: nat, hash: Hash)
    requires i < |kept|
    ensures CursorOf(dropped + kept, |dropped| + i, hash) == CursorOf(kept, i, hash)
       <==> Occurrences(dropped, hash(kept[i].bytes), hash) == 0
  {
    var h := hash(kept[i].bytes);
    assert (dropped + kept)[..|dropped| + i + 1] == dropped + kept[..i + 1];
    OccurrencesAppend(dropped, kept[..i + 1], h, hash);
  }

  /** A gap, or exactly the records behind the followed one. */
  ghost predicate RightAfterDrop(
    dropped: seq<Entry>, kept: seq<Entry>, p: nat, hash: Hash, r: Answer)
    requires p < |dropped| + |kept|
  {
    r == Err(FollowGap) || (p >= |dropped| && r == Ok(Stamp(kept, hash)[p - |dropped| + 1..]))
  }

  lemma CursorHash(entries: seq<Entry>, i: nat, hash: Hash)
    requires i < |entries|
    ensures CursorOf(entries, i, hash).hash == hash(entries[i].bytes)
  {
  }

  lemma NamedAfterDrop(dropped: seq<Entry>, kept: seq<Entry>, p: nat, q: nat, hash: Hash)
    requires p < |dropped| + |kept| && q < |kept|
    requires CursorOf(kept, q, hash) == CursorOf(dropped + kept, p, hash)
    ensures Occurrences(dropped, CursorOf(kept, q, hash).hash, hash) == 0 <==> p == |dropped| + q
  {
    hide CursorOf, Occurrences;
    CursorHash(kept, q, hash);
    CursorHash(dropped + kept, p, hash);
    CursorSurvives(dropped, kept, q, hash);
    if p < |dropped| {
      OccurrencesNone(dropped, hash(dropped[p].bytes), hash);
    } else {
      var i := p - |dropped|;
      assert (dropped + kept)[p] == kept[i];
      CursorSurvives(dropped, kept, i, hash);
      if CursorOf(kept, i, hash) == CursorOf(kept, q, hash) { SameCursor(kept, i, q, hash); }
    }
  }

  /** Rotation drops the front of the log, whether or not the followed record p goes
      with it. Every answer to its cursor is right if and only if no dropped record
      has its content, or the cursor names nothing in the window. */
  lemma FollowAfterDrop(dropped: seq<Entry>, kept: seq<Entry>, p: nat, tail: nat, hash: Hash)
    requires p < |dropped| + |kept|
    ensures var c := CursorOf(dropped + kept, p, hash);
            ((forall r :: Answers(Stamp(kept, hash), tail, Some(c), r) ==> RightAfterDrop(dropped, kept, p, hash, r))
             <==> (Occurrences(dropped, c.hash, hash) == 0 || forall q :: !Names(kept, tail, c, hash, q)))
  {
    hide Answers, CursorOf, Occurrences, Stamp;
    var c := CursorOf(dropped + kept, p, hash);
    if q :| Names(kept, tail, c, hash, q) {
      NamedAfterDrop(dropped, kept, p, q, hash);
      var answer := Stamp(kept, hash)[q + 1..];
      forall r { AnswerNamed(kept, tail, c, hash, q, r); }
      assert Answers(Stamp(kept, hash), tail, Some(c), Ok(answer));
      if p >= |dropped| && answer == Stamp(kept, hash)[p - |dropped| + 1..] {
        assert |answer| == |kept| - q - 1;
      }
    } else {
      forall r { AnswerGap(kept, tail, c, hash, r); }
    }
  }

  // ---------- A reading of the log ----------

  /** The positions in the log of the records a query reads. A slot longer than 1 MiB
      is read from some line in the middle on, so positions can be missing anywhere. */
  ghost predicate Reading(log: seq<Entry>, at: seq<nat>) {
    && (forall i :: 0 <= i < |at| ==> at[i] < |log|)
    && (forall i, j :: 0 <= i < j < |at| ==> at[i] < at[j])
  }

  function Records(log: seq<Entry>, at: seq<nat>): (r: seq<Entry>)
    requires forall i :: 0 <= i < |at| ==> at[i] < |log|
    ensures |r| == |at|
  {
    seq(|at|, i requires 0 <= i < |at| => log[at[i]])
  }

  /** How many records up to position p are read. */
  function ReadUpTo(at: seq<nat>, p: nat): (n: nat)
    ensures n <= |at|
  {
    if at == [] then 0 else if at[|at| - 1] <= p then |at| else ReadUpTo(at[..|at| - 1], p)
  }

  /** Every record behind position p is read. */
  ghost predicate ReadsAllAfter(log: seq<Entry>, at: seq<nat>, p: nat) {
    forall k :: p < k < |log| ==> k in at
  }

  /** A gap, or every record of the log behind position p and nothing else. */
  ghost predicate Right(log: seq<Entry>, at: seq<nat>, p: nat, hash: Hash, r: Answer)
    requires Reading(log, at)
  {
    r == Err(FollowGap)
    || (ReadsAllAfter(log, at, p) && r == Ok(Stamp(Records(log, at), hash)[ReadUpTo(at, p)..]))
  }

  lemma {:induction false} ReadUpToSplits(log: seq<Entry>, at: seq<nat>, p: nat)
    requires Reading(log, at)
    ensures forall i :: 0 <= i < |at| ==> (at[i] <= p <==> i < ReadUpTo(at, p))
    decreases |at|
  {
    if at != [] && at[|at| - 1] > p { ReadUpToSplits(log, at[..|at| - 1], p); }
  }

  /** Follow the record at position p by any cursor, whichever reading it was counted
      in. Every answer is right if and only if it is a gap, or the reading has every
      record behind p, the last one it has up to p has the content of the cursor, and
      it has as many of that content up to p as the cursor counts. */
  lemma FollowReading(log: seq<Entry>, now: seq<nat>, p: nat, c: Cursor, tail: nat, hash: Hash)
    requires Reading(log, now) && p < |log|
    ensures var kept, n := Records(log, now), ReadUpTo(now, p);
            ((forall r :: Answers(Stamp(kept, hash), tail, Some(c), r) ==> Right(log, now, p, hash, r))
             <==> (|| (forall q :: !Names(kept, tail, c, hash, q))
                   || (&& ReadsAllAfter(log, now, p) && n > 0
                       && hash(kept[n - 1].bytes) == c.hash && Occurrences(kept[..n], c.hash, hash) == c.count)))
  {
    hide Answers, Occurrences, Stamp, ReadsAllAfter;
    var kept, n := Records(log, now), ReadUpTo(now, p);
    if q :| Names(kept, tail, c, hash, q) {
      var answer := Stamp(kept, hash)[q + 1..];
      forall r { AnswerNamed(kept, tail, c, hash, q, r); }
      assert Answers(Stamp(kept, hash), tail, Some(c), Ok(answer));
      if n > 0 && CursorOf(kept, n - 1, hash) == c { SameCursor(kept, n - 1, q, hash); }
      if answer == Stamp(kept, hash)[n..] { assert |kept| - q - 1 == |kept| - n; }
    } else {
      forall r { AnswerGap(kept, tail, c, hash, r); }
    }
  }

  /** The right answer holds exactly the records behind position p. */
  lemma RightHoldsAll(log: seq<Entry>, at: seq<nat>, p: nat, hash: Hash)
    requires Reading(log, at) && p < |log| && ReadsAllAfter(log, at, p)
    ensures var answer := Stamp(Records(log, at), hash)[ReadUpTo(at, p)..];
            |answer| == |log| - p - 1 && forall k :: 0 <= k < |answer| ==> answer[k].entry == log[p + 1 + k]
  {
    ReadUpToSplits(log, at, p);
    var n, answer := ReadUpTo(at, p), Stamp(Records(log, at), hash)[ReadUpTo(at, p)..];
    if |at| > n { TailClimbs(log, at, n, |at| - n - 1); }
    if |log| > p + 1 { AllAfterAt(log, at, p, |log| - 1); }
    forall k | 0 <= k < |answer| ensures answer[k].entry == log[p + 1 + k] { AllAfterAt(log, at, p, p + 1 + k); }
  }

  lemma {:induction false} TailClimbs(log: seq<Entry>, at: seq<nat>, n: nat, k: nat)
    requires Reading(log, at) && n + k < |at|
    ensures at[n + k] >= at[n] + k
  {
    if k > 0 { TailClimbs(log, at, n, k - 1); }
  }

  lemma {:induction false} AllAfterAt(log: seq<Entry>, at: seq<nat>, p: nat, k: nat)
    requires Reading(log, at) && p < k < |log| && ReadsAllAfter(log, at, p)
    ensures var j := ReadUpTo(at, p) + k - p - 1; j < |at| && at[j] == k
  {
    var n := ReadUpTo(at, p);
    ReadUpToSplits(log, at, p);
    assert k in at;
    var j :| 0 <= j < |at| && at[j] == k;
    if k == p + 1 {
      OrderReflects(log, at, n, j);
    } else {
      AllAfterAt(log, at, p, k - 1);
      var before := n + k - p - 2;
      OrderReflects(log, at, before, j);
      OrderReflects(log, at, before, before + 1);
      OrderReflects(log, at, before + 1, j);
    }
  }

  lemma OrderReflects(log: seq<Entry>, at: seq<nat>, i: nat, j: nat)
    requires Reading(log, at) && i < |at| && j < |at|
    ensures at[i] < at[j] <==> i < j
  {
  }

  // ---------- Inputs that go wrong ----------

  /** The follower has seen two of three equal records; the first is dropped, and the
      third, which is unseen, is not answered. */
  lemma FollowCanSkip(x: Entry, hash: Hash)
    ensures var log, dropped, kept := [x, x, x], [x], [x, x];
            && log == dropped + kept
            && forall r: Answer :: Answers(Stamp(kept, hash), 1, Some(CursorOf(log, 1, hash)), r) ==>
                 r == Ok([]) && !RightAfterDrop(dropped, kept, 1, hash, r)
  {
    var log, dropped, kept := [x, x, x], [x], [x, x];
    var c := CursorOf(log, 1, hash);
    assert log[..2] == kept && kept[..2] == kept && dropped + kept == log;
    assert Names(kept, 1, c, hash, 1);
    forall r { AnswerNamed(kept, 1, c, hash, 1, r); }
    assert Stamp(kept, hash)[2..] == [] && |Stamp(kept, hash)[1..]| == 1;
  }

  /** The followed record is dropped itself, and an equal one behind unseen records
      takes its place. */
  lemma FollowCanSkipDropped(x: Entry, y: Entry, z: Entry, hash: Hash)
    requires hash(y.bytes) != hash(x.bytes)
    ensures var dropped, kept := [x], [y, x, z];
            forall r: Answer :: Answers(Stamp(kept, hash), 2, Some(CursorOf(dropped + kept, 0, hash)), r) ==>
              r.Ok? && |r.value| == 1 && r.value[0].entry == z && !RightAfterDrop(dropped, kept, 0, hash, r)
  {
    var dropped, kept := [x], [y, x, z];
    var c := CursorOf(dropped + kept, 0, hash);
    assert (dropped + kept)[..1] == [x] && kept[..2] == [y] + [x];
    OccurrencesAppend([y], [x], hash(x.bytes), hash);
    OccurrencesNone([y], hash(x.bytes), hash);
    assert Names(kept, 2, c, hash, 1);
    forall r { AnswerNamed(kept, 2, c, hash, 1, r); }
  }
}
