/**
 * What one call of Mailbox.check_new_mails computes: the new-mail delta of an
 * account against its stored list, and the document it leaves behind.
 */
module Synchronizer {
  import opened Wrappers
  import opened SeenStore

  /** The elements of a list, as Python's `set(list)`. */
  function Elems(s: seq<int>): set<int> {
    set x | x in s
  }

  predicate NoDuplicates(s: seq<int>) {
    forall i, j :: 0 <= i < j < |s| ==> s[i] != s[j]
  }

  /**
   * `list(set(remote).difference(set(seen)))`: every number in `remote` and not
   * in `seen`, each once. The order of Python's set is unspecified; this one
   * keeps the first occurrences in `remote`.
   */
  function Delta(remote: seq<int>, seen: seq<int>): (d: seq<int>)
    ensures forall x :: x in d <==> x in remote && x !in seen
    ensures NoDuplicates(d)
    decreases |remote|
  {
    if remote == [] then []
    else
      var init := remote[..|remote| - 1];
      var x := remote[|remote| - 1];
      assert remote == init + [x];
      var rest := Delta(init, seen);
      if x in seen || x in rest then rest else rest + [x]
  }

  /** A list without duplicates has as many entries as its set has elements. */
  lemma {:induction false} NoDuplicatesCard(s: seq<int>)
    requires NoDuplicates(s)
    ensures |Elems(s)| == |s|
    decreases |s|
  {
    if s != [] {
      var init := s[..|s| - 1];
      var x := s[|s| - 1];
      assert s == init + [x];
      assert Elems(s) == Elems(init) + {x};
      assert x !in Elems(init);
      NoDuplicatesCard(init);
    }
  }

  datatype SyncOutcome = SyncOutcome(delta: seq<int>, file: Option<Document>)

  /**
   * One check of `login` against the listing `remote`: the stored list is read
   * (empty when the file or the entry is absent), the delta is computed, and
   * only when it is non-empty is the entry replaced by the whole listing.
   */
  function Sync(file: Option<Document>, login: string, remote: seq<int>): SyncOutcome {
    var delta := Delta(remote, Entry(Loaded(file), login));
    SyncOutcome(delta, if delta == [] then file else Some(Put(Loaded(file), login, remote)))
  }

  /**
   * The delta is exactly the set difference of listing and stored list, each
   * number once; it is empty exactly when the stored list covers the listing; the
   * file is left alone when it is empty and otherwise gets the whole listing.
   */
  lemma SyncSpec(file: Option<Document>, login: string, remote: seq<int>)
    ensures var out := Sync(file, login, remote);
      var seen := Entry(Loaded(file), login);
      && Elems(out.delta) == Elems(remote) - Elems(seen)
      && NoDuplicates(out.delta)
      && |out.delta| == |Elems(remote) - Elems(seen)|
      && (out.delta == [] <==> forall x :: x in remote ==> x in seen)
      && (out.delta == [] ==> out.file == file)
      && (out.delta != [] ==> out.file == Some(Put(Loaded(file), login, remote)))
  {
    var seen := Entry(Loaded(file), login);
    var delta := Delta(remote, seen);
    assert Elems(delta) == Elems(remote) - Elems(seen);
    NoDuplicatesCard(delta);
    assert delta != [] ==> delta[0] in delta;
  }

  /** A check touches no login but its own, and never removes an entry. */
  lemma SyncFrame(file: Option<Document>, login: string, remote: seq<int>, other: string)
    requires other != login
    ensures Entry(Loaded(Sync(file, login, remote).file), other) == Entry(Loaded(file), other)
    ensures Loaded(file).Keys <= Loaded(Sync(file, login, remote).file).Keys
  {
    SyncSpec(file, login, remote);
  }

  /** After a check the stored list of `login` holds every number of the listing. */
  lemma SyncCovers(file: Option<Document>, login: string, remote: seq<int>)
    ensures forall x :: x in remote ==> x in Entry(Loaded(Sync(file, login, remote).file), login)
  {
    SyncSpec(file, login, remote);
    var out := Sync(file, login, remote);
    if out.delta != [] {
      EntryAfterPut(Loaded(file), login, remote, login);
    }
  }

  /** Idempotence: checking again against the same listing reports nothing and writes nothing. */
  lemma SyncIdempotent(file: Option<Document>, login: string, remote: seq<int>)
    ensures var first := Sync(file, login, remote);
      var second := Sync(first.file, login, remote);
      second.delta == [] && second.file == first.file
  {
    SyncCovers(file, login, remote);
    DeltaCovered(remote, Entry(Loaded(Sync(file, login, remote).file), login));
  }

  /**
   * Nothing is stored that was not reported: after a check, every number in the
   * entry of `login` was either in its earlier entry or in the delta just returned.
   */
  lemma SyncStoresOnlyReported(file: Option<Document>, login: string, remote: seq<int>)
    ensures var out := Sync(file, login, remote);
      Elems(Entry(Loaded(out.file), login)) <= Elems(out.delta) + Elems(Entry(Loaded(file), login))
  {
    SyncSpec(file, login, remote);
    var out := Sync(file, login, remote);
    if out.delta != [] {
      EntryAfterPut(Loaded(file), login, remote, login);
    }
  }

  /**
   * The check as written: the delta comes from the first SEARCH (`listed`), but
   * the entry written comes from a second SEARCH (`relisted`) issued by the save.
   */
  function SyncRelisted(file: Option<Document>, login: string, listed: seq<int>, relisted: seq<int>): SyncOutcome {
    var delta := Sync(file, login, listed).delta;
    SyncOutcome(delta, if delta == [] then file else Some(Put(Loaded(file), login, relisted)))
  }

  /**
   * A message that arrives between the two SEARCH calls is stored as seen without
   * ever being reported: message 2 below is never part of any delta.
   */
  lemma RelistingLosesMail(login: string)
    ensures var first := SyncRelisted(None, login, [1], [1, 2]);
      && first.delta == [1]
      && 2 !in Elems(first.delta) + Elems(Entry(Loaded(None), login))
      && 2 in Elems(Entry(Loaded(first.file), login))
      && Sync(first.file, login, [1, 2]).delta == []
  {
    DeltaSnoc([], 1, []);
    assert [] + [1] == [1];
    var delta := Delta([1], []);
    assert delta == [1];
    assert Sync(None, login, [1]).delta == delta;
    var first := SyncRelisted(None, login, [1], [1, 2]);
    assert first.file == Some(Put(map[], login, [1, 2]));
    EntryAfterPut(map[], login, [1, 2], login);
    var e := Entry(Loaded(first.file), login);
    assert e == [1, 2];
    assert 2 in Elems(e);
    DeltaCovered([1, 2], e);
  }

  /**
   * Two accounts configured with the same login share one entry: each check
   * overwrites what the other stored, so a listing already reported once is
   * reported again after the other account's check.
   */
  lemma SharedLoginOverwrites(login: string)
    ensures var first := Sync(None, login, [1]);
      var other := Sync(first.file, login, [2]);
      var again := Sync(other.file, login, [1]);
      && first.delta == [1] && other.delta == [2] && again.delta == [1]
  {
    DeltaSnoc([], 1, []);
    assert [] + [1] == [1];
    assert Delta([1], []) == [1];
    var first := Sync(None, login, [1]);
    EntryAfterPut(map[], login, [1], login);
    assert Entry(Loaded(first.file), login) == [1];
    DeltaSnoc([], 2, [1]);
    assert [] + [2] == [2];
    assert Delta([2], [1]) == [2];
    var other := Sync(first.file, login, [2]);
    EntryAfterPut(Loaded(first.file), login, [2], login);
    assert Entry(Loaded(other.file), login) == [2];
    DeltaSnoc([], 1, [2]);
    assert Delta([1], [2]) == [1];
  }

  /** The delta of a listing extended by one number. */
  lemma DeltaSnoc(init: seq<int>, x: int, seen: seq<int>)
    ensures Delta(init + [x], seen)
      == if x in seen || x in Delta(init, seen) then Delta(init, seen) else Delta(init, seen) + [x]
  {
    assert (init + [x])[..|init|] == init;
  }

  /** A listing entirely covered by the stored list has an empty delta. */
  lemma DeltaCovered(remote: seq<int>, seen: seq<int>)
    requires forall x :: x in remote ==> x in seen
    ensures Delta(remote, seen) == []
  {
  }

  /** The listing [1, 2, 3] against an empty stored list: everything is new. */
  lemma FirstListingDelta()
    ensures Delta([1, 2, 3], []) == [1, 2, 3]
  {
    DeltaSnoc([], 1, []);
    assert [] + [1] == [1];
    assert Delta([1], []) == [1];
    DeltaSnoc([1], 2, []);
    assert [1] + [2] == [1, 2];
    assert Delta([1, 2], []) == [1, 2];
    DeltaSnoc([1, 2], 3, []);
    assert [1, 2] + [3] == [1, 2, 3];
  }

  /** The listing [1, 2, 3, 4] against the stored [1, 2, 3]: only 4 is new. */
  lemma GrownListingDelta()
    ensures Delta([1, 2, 3, 4], [1, 2, 3]) == [4]
  {
    DeltaCovered([1, 2, 3], [1, 2, 3]);
    DeltaSnoc([1, 2, 3], 4, [1, 2, 3]);
    assert [1, 2, 3] + [4] == [1, 2, 3, 4];
  }

  /**
   * A first, second and third check of one account: no file and the listing
   * [1, 2, 3] reports [1, 2, 3] and stores it; the same listing again reports
   * nothing; [1, 2, 3, 4] then reports [4] and stores the whole listing.
   */
  lemma ThreeChecks(login: string)
    ensures var run1 := Sync(None, login, [1, 2, 3]);
      var run2 := Sync(run1.file, login, [1, 2, 3]);
      var run3 := Sync(run2.file, login, [1, 2, 3, 4]);
      && run1.delta == [1, 2, 3] && Entry(Loaded(run1.file), login) == [1, 2, 3]
      && run2.delta == [] && run2.file == run1.file
      && run3.delta == [4] && Entry(Loaded(run3.file), login) == [1, 2, 3, 4]
  {
    FirstListingDelta();
    GrownListingDelta();
    var run1 := Sync(None, login, [1, 2, 3]);
    assert run1.delta == [1, 2, 3];
    SyncIdempotent(None, login, [1, 2, 3]);
    var run2 := Sync(run1.file, login, [1, 2, 3]);
    assert Entry(Loaded(run2.file), login) == [1, 2, 3];
  }
}
