/**
 * The two in-memory tiers: a bounded queue per session, and a record list with an index by tag. The
 * queue is compared with the history of its session, the index with a full scan of the records; both
 * are used by one caller at a time.
 */
module Memory {
  import opened Commons

  /** An entry; everything but the tenant is payload here. */
  datatype Entry = Entry(key: string, value: string, tenant: Option<string>)

  // ----- sequences -----

  /** The last `n` elements, or all of them. */
  function Last<T>(s: seq<T>, n: nat): (r: seq<T>)
    ensures |r| == if |s| <= n then |s| else n
  {
    if |s| <= n then s else s[|s| - n..]
  }

  function Reversed<T>(s: seq<T>): (r: seq<T>)
    ensures |r| == |s|
    ensures forall i :: 0 <= i < |s| ==> r[i] == s[|s| - 1 - i]
  {
    if s == [] then [] else [s[|s| - 1]] + Reversed(s[..|s| - 1])
  }

  lemma LastOfLast<T>(s: seq<T>, m: nat, n: nat)
    ensures Last(Last(s, m), n) == Last(s, if m <= n then m else n)
  {}

  // ----- working memory -----

  datatype Event =
    | Appended(session: string, entry: Entry)
    | Cleared(session: string)

  /** What was appended to a session after it was last cleared, oldest first. */
  function SinceClear(events: seq<Event>, session: string): seq<Entry> {
    if events == [] then []
    else
      var last := events[|events| - 1];
      if last.session != session then SinceClear(events[..|events| - 1], session)
      else if last.Cleared? then []
      else SinceClear(events[..|events| - 1], session) + [last.entry]
  }

  /**
   * What a queue of capacity `cap` keeps of a history. Capacity 0 never equals the length the
   * queue is tested with once an entry is in it, so such a queue is never shortened.
   */
  function Kept(entries: seq<Entry>, cap: nat): seq<Entry> {
    if cap == 0 then entries else Last(entries, cap)
  }

  lemma KeptGrows(entries: seq<Entry>, e: Entry, cap: nat)
    ensures var q := Kept(entries, cap);
      Kept(entries + [e], cap) == (if |q| == cap && q != [] then q[1..] else q) + [e]
  {}

  /** The end of a kept queue, as long as the limit allows, is the end of all entries, bounded by both. */
  lemma NewestKept(entries: seq<Entry>, cap: nat, limit: nat, i: nat)
    requires var q := Kept(entries, cap); i <= |q| && (i == 0 || |q| - i == limit) && |q| - i <= limit
    ensures Kept(entries, cap)[i..] == Last(entries, if cap != 0 && cap <= limit then cap else limit)
    ensures cap != 0 ==> |Kept(entries, cap)| <= cap
  {
  }

  lemma ReversedNone<T>()
    ensures Reversed<T>([]) == []
  {
  }

  class WorkingMemory {
    const cap: nat
    var sessions: map<string, seq<Entry>>
    ghost var history: seq<Event>

    ghost predicate Valid() reads this {
      && (forall s :: s in sessions <==> SinceClear(history, s) != [])
      && (forall s :: s in sessions ==> sessions[s] == Kept(SinceClear(history, s), cap))
    }

    constructor WithCapacity(capacity: nat)
      ensures Valid() && history == [] && cap == Max(capacity, 1)
    {
      cap := Max(capacity, 1);
      sessions := map[];
      history := [];
    }

    /** The derived default leaves the capacity at zero. */
    constructor Default()
      ensures Valid() && history == [] && cap == 0
    {
      cap := 0;
      sessions := map[];
      history := [];
    }

    method Append(session: string, entry: Entry)
      requires Valid()
      modifies this
      ensures Valid() && history == old(history) + [Appended(session, entry)]
      ensures session in sessions
      ensures sessions[session] == Kept(SinceClear(old(history), session) + [entry], cap)
      ensures forall s :: s != session ==> (s in sessions <==> s in old(sessions))
      ensures forall s :: s != session && s in sessions ==> sessions[s] == old(sessions)[s]
    {
      var q := if session in sessions then sessions[session] else [];
      KeptGrows(SinceClear(history, session), entry, cap);
      if |q| == cap && q != [] {
        q := q[1..];
      }
      sessions := sessions[session := q + [entry]];
      history := history + [Appended(session, entry)];
      assert history[..|history| - 1] == old(history);
    }

    /** The newest entries since the session was last cleared, newest first. */
    method Recent(session: string, limit: nat) returns (r: seq<Entry>)
      requires Valid()
      ensures cap != 0 ==>
        r == Reversed(Last(SinceClear(history, session), if cap <= limit then cap else limit))
      ensures cap == 0 ==> r == Reversed(Last(SinceClear(history, session), limit))
      ensures cap != 0 ==> |r| <= cap
      ensures |r| <= limit
    {
      var q := if session in sessions then sessions[session] else [];
      ghost var entries := SinceClear(history, session);
      assert q == Kept(entries, cap);
      hide Reversed, SinceClear, Kept, Last, Valid;
      r := [];
      var i := |q|;
      ReversedNone<Entry>();
      while i > 0 && |r| < limit
        invariant 0 <= i <= |q| && |r| == |q| - i <= limit
        invariant r == Reversed(q[i..])
      {
        i := i - 1;
        assert q[i..] == [q[i]] + q[i + 1..];
        ReversedPrepends(q[i], q[i + 1..]);
        r := r + [q[i]];
      }
      NewestKept(entries, cap, limit, i);
    }

    method Clear(session: string)
      requires Valid()
      modifies this
      ensures Valid() && history == old(history) + [Cleared(session)]
      ensures session !in sessions
      ensures forall s :: s != session ==> (s in sessions <==> s in old(sessions))
      ensures forall s :: s != session && s in sessions ==> sessions[s] == old(sessions)[s]
    {
      sessions := sessions - {session};
      history := history + [Cleared(session)];
      assert history[..|history| - 1] == old(history);
    }

    /** Counts the sessions that hold something. */
    method SessionCount() returns (n: nat)
      requires Valid()
      ensures n == |sessions.Keys|
      ensures forall s :: s in sessions.Keys <==> SinceClear(history, s) != []
    {
      n := |sessions|;
    }
  }

  /** Under the default constructor a session grows without bound: `n` appends leave `n` entries. */
  method DefaultGrowsWithoutBound(n: nat, e: Entry) returns (kept: nat)
    ensures kept == n
  {
    var w := new WorkingMemory.Default();
    var i := 0;
    while i < n
      invariant 0 <= i <= n && w.Valid() && w.cap == 0
      invariant fresh(w)
      invariant |SinceClear(w.history, "s")| == i
    {
      w.Append("s", e);
      assert w.history[..|w.history| - 1] + [Appended("s", e)] == w.history;
      i := i + 1;
    }
    var r := w.Recent("s", n);
    kept := |r|;
  }

  // ----- episodic memory -----

  datatype Episode = Episode(entry: Entry, tags: seq<string>)

  /** Readable by a caller: no filter, a public entry, or the caller's own. */
  predicate Visible(e: Entry, tenant: Option<string>) {
    tenant == None || e.tenant == None || e.tenant == tenant
  }

  /** With a tenant the caller sees the public entries and that tenant's own; without one, everything. */
  lemma VisibleIs(e: Entry, tenant: string)
    ensures Visible(e, None)
    ensures Visible(e, Some(tenant)) <==> e.tenant == None || e.tenant == Some(tenant)
  {}

  /** The full scan: every record with the tag that the tenant may read, in recording order. */
  function Scan(records: seq<Episode>, tag: string, tenant: Option<string>): seq<Entry> {
    if records == [] then []
    else
      var earlier, last := Scan(records[..|records| - 1], tag, tenant), records[|records| - 1];
      if tag in last.tags && Visible(last.entry, tenant) then earlier + [last.entry] else earlier
  }

  function Repeat<T>(x: T, n: nat): (r: seq<T>)
    ensures |r| == n && forall i :: 0 <= i < n ==> r[i] == x
  {
    if n == 0 then [] else Repeat(x, n - 1) + [x]
  }

  /** The index of a tag: the position of every record, once per occurrence of the tag in it. */
  function Positions(records: seq<Episode>, tag: string): (r: seq<nat>)
    ensures forall i :: 0 <= i < |r| ==> r[i] < |records|
  {
    if records == [] then []
    else
      Positions(records[..|records| - 1], tag)
        + Repeat(|records| - 1, Occurrences(records[|records| - 1].tags, tag))
  }

  /** The visible entries behind a list of positions. */
  function Select(records: seq<Episode>, at: seq<nat>, tenant: Option<string>): seq<Entry>
    requires forall i :: 0 <= i < |at| ==> at[i] < |records|
  {
    if at == [] then []
    else
      var earlier := Select(records, at[..|at| - 1], tenant);
      var e := records[at[|at| - 1]].entry;
      if Visible(e, tenant) then earlier + [e] else earlier
  }

  lemma {:induction false} OccurrencesPositive(tags: seq<string>, tag: string)
    ensures Occurrences(tags, tag) > 0 <==> tag in tags
  {
    if tags != [] {
      OccurrencesPositive(tags[..|tags| - 1], tag);
      assert tags == tags[..|tags| - 1] + [tags[|tags| - 1]];
    }
  }

  lemma {:induction false} SelectIgnoresLaterRecords(records: seq<Episode>, r: Episode, at: seq<nat>,
                                                     tenant: Option<string>)
    requires forall i :: 0 <= i < |at| ==> at[i] < |records|
    ensures Select(records + [r], at, tenant) == Select(records, at, tenant)
  {
    if at != [] {
      SelectIgnoresLaterRecords(records, r, at[..|at| - 1], tenant);
    }
  }

  lemma {:induction false} SelectAppends(records: seq<Episode>, a: seq<nat>, b: seq<nat>, tenant: Option<string>)
    requires forall i :: 0 <= i < |a| ==> a[i] < |records|
    requires forall i :: 0 <= i < |b| ==> b[i] < |records|
    ensures forall i :: 0 <= i < |a + b| ==> (a + b)[i] < |records|
    ensures Select(records, a + b, tenant) == Select(records, a, tenant) + Select(records, b, tenant)
  {
    if b != [] {
      var front := b[..|b| - 1];
      SelectAppends(records, a, front, tenant);
      assert (a + b)[..|a + b| - 1] == a + front;
      assert (a + b)[|a + b| - 1] == b[|b| - 1];
    } else {
      assert a + b == a;
    }
  }

  lemma PositionsGrow(records: seq<Episode>, e: Episode)
    ensures forall t ::
      Positions(records + [e], t) == Positions(records, t) + Repeat(|records|, Occurrences(e.tags, t))
  {
    assert (records + [e])[..|records|] == records;
  }

  /** One more occurrence of one tag adds one position to that tag's list, and to no other. */
  lemma TagOccursOnce(tags: seq<string>, i: nat, at: nat, t: string)
    requires i < |tags|
    ensures Repeat(at, Occurrences(tags[..i + 1], t))
      == Repeat(at, Occurrences(tags[..i], t)) + if tags[i] == t then [at] else []
  {
    assert tags[..i + 1][..i] == tags[..i];
  }

  /** With no record naming a tag twice, going through the index is the full scan. */
  lemma {:induction false} IndexIsScan(records: seq<Episode>, tag: string, tenant: Option<string>)
    requires forall i :: 0 <= i < |records| ==> Occurrences(records[i].tags, tag) <= 1
    ensures Select(records, Positions(records, tag), tenant) == Scan(records, tag, tenant)
  {
    if records != [] {
      var front, last := records[..|records| - 1], records[|records| - 1];
      assert records == front + [last];
      IndexIsScan(front, tag, tenant);
      var before := Positions(front, tag);
      var here := Repeat(|front|, Occurrences(last.tags, tag));
      SelectIgnoresLaterRecords(front, last, before, tenant);
      SelectAppends(records, before, here, tenant);
      OccurrencesPositive(last.tags, tag);
      if here != [] {
        assert here == [|front|] && here[..0] == [];
        assert Select(records, [], tenant) == [];
      }
    }
  }

  lemma {:induction false} SelectAllLength(records: seq<Episode>, at: seq<nat>)
    requires forall i :: 0 <= i < |at| ==> at[i] < |records|
    ensures |Select(records, at, None)| == |at|
  {
    if at != [] {
      SelectAllLength(records, at[..|at| - 1]);
    }
  }

  lemma {:induction false} ScanIsNoLonger(records: seq<Episode>, tag: string)
    ensures |Scan(records, tag, None)| <= |Positions(records, tag)|
    ensures (exists i :: 0 <= i < |records| && Occurrences(records[i].tags, tag) > 1) ==>
      |Scan(records, tag, None)| < |Positions(records, tag)|
  {
    if records != [] {
      var front, last := records[..|records| - 1], records[|records| - 1];
      assert records == front + [last];
      ScanIsNoLonger(front, tag);
      OccurrencesPositive(last.tags, tag);
    }
  }

  /** The index answers every lookup of a tag like the full scan exactly when no record repeats that tag. */
  lemma IndexIsScanIff(records: seq<Episode>, tag: string)
    ensures (forall tenant :: Select(records, Positions(records, tag), tenant) == Scan(records, tag, tenant))
      <==> (forall i :: 0 <= i < |records| ==> Occurrences(records[i].tags, tag) <= 1)
  {
    if forall i :: 0 <= i < |records| ==> Occurrences(records[i].tags, tag) <= 1 {
      forall tenant
        ensures Select(records, Positions(records, tag), tenant) == Scan(records, tag, tenant)
      {
        IndexIsScan(records, tag, tenant);
      }
    } else {
      ScanIsNoLonger(records, tag);
      SelectAllLength(records, Positions(records, tag));
      assert Select(records, Positions(records, tag), None) != Scan(records, tag, None);
    }
  }

  /** The index entry of a tag; a tag never recorded has none. */
  function Listed(index: map<string, seq<nat>>, tag: string): seq<nat> {
    if tag in index then index[tag] else []
  }

  /** `index` with the position `at` added once per occurrence of each tag. */
  ghost predicate IndexGrew(was: map<string, seq<nat>>, index: map<string, seq<nat>>, at: nat, tags: seq<string>) {
    forall t :: Listed(index, t) == Listed(was, t) + Repeat(at, Occurrences(tags, t))
  }

  lemma IndexGrowsByTag(was: map<string, seq<nat>>, index: map<string, seq<nat>>, at: nat, tags: seq<string>, i: nat)
    requires i < |tags| && IndexGrew(was, index, at, tags[..i])
    ensures IndexGrew(was, index[tags[i] := Listed(index, tags[i]) + [at]], at, tags[..i + 1])
  {
    hide Repeat, Occurrences;
    forall t
      ensures Listed(index[tags[i] := Listed(index, tags[i]) + [at]], t)
        == Listed(was, t) + Repeat(at, Occurrences(tags[..i + 1], t))
    {
      TagOccursOnce(tags, i, at, t);
    }
  }

  lemma NothingGrew(index: map<string, seq<nat>>, at: nat, tags: seq<string>)
    ensures IndexGrew(index, index, at, tags[..0])
  {
    assert forall t :: Repeat(at, Occurrences(tags[..0], t)) == [];
  }

  lemma IndexFollows(was: map<string, seq<nat>>, index: map<string, seq<nat>>, records: seq<Episode>, e: Episode)
    requires forall t :: Listed(was, t) == Positions(records, t)
    requires IndexGrew(was, index, |records|, e.tags)
    ensures forall t :: Listed(index, t) == Positions(records + [e], t)
  {
    hide Listed, Positions, Repeat, Occurrences;
    PositionsGrow(records, e);
  }

  lemma DistinctTagsScan(records: seq<Episode>, tag: string, tenant: Option<string>)
    ensures (forall i :: 0 <= i < |records| ==> Distinct(records[i].tags)) ==>
      Select(records, Positions(records, tag), tenant) == Scan(records, tag, tenant)
  {
    if forall i :: 0 <= i < |records| ==> Distinct(records[i].tags) {
      forall i | 0 <= i < |records|
        ensures Occurrences(records[i].tags, tag) <= 1
      {
        OccurrencesOfDistinct(records[i].tags, tag);
      }
      IndexIsScan(records, tag, tenant);
    }
  }

  class EpisodicMemory {
    var entries: seq<Entry>
    var byTag: map<string, seq<nat>>
    ghost var records: seq<Episode>

    ghost predicate Valid() reads this {
      && |entries| == |records|
      && (forall i :: 0 <= i < |entries| ==> entries[i] == records[i].entry)
      && (forall t :: Listed(byTag, t) == Positions(records, t))
    }

    constructor ()
      ensures Valid() && records == []
    {
      entries, byTag, records := [], map[], [];
    }

    method Record(entry: Entry, tags: seq<string>) returns (idx: nat)
      requires Valid()
      modifies this
      ensures Valid() && records == old(records) + [Episode(entry, tags)]
      ensures idx == |old(entries)| && entries == old(entries) + [entry]
    {
      hide Positions, Occurrences, Repeat, IndexGrew, Listed;
      entries := entries + [entry];
      idx := |entries| - 1;
      var i := 0;
      NothingGrew(byTag, idx, tags);
      while i < |tags|
        invariant 0 <= i <= |tags|
        invariant entries == old(entries) + [entry] && records == old(records)
        invariant IndexGrew(old(byTag), byTag, idx, tags[..i])
      {
        IndexGrowsByTag(old(byTag), byTag, idx, tags, i);
        byTag := byTag[tags[i] := Listed(byTag, tags[i]) + [idx]];
        i := i + 1;
      }
      assert tags[..i] == tags;
      IndexFollows(old(byTag), byTag, records, Episode(entry, tags));
      records := records + [Episode(entry, tags)];
    }

    /** The last `limit` readable entries of the tag's index, in recording order. */
    method ByTag(tag: string, tenant: Option<string>, limit: nat) returns (r: seq<Entry>)
      requires Valid()
      ensures r == Last(Select(records, Positions(records, tag), tenant), limit)
      ensures (forall i :: 0 <= i < |records| ==> Distinct(records[i].tags)) ==>
        r == Last(Scan(records, tag, tenant), limit)
    {
      hide Positions, Scan, Select, Visible, Distinct, Reversed, Last, Listed;
      var idxs := Listed(byTag, tag);
      var out := [];
      var i := |idxs|;
      assert idxs[i..] == [];
      SelectNone(records, tenant);
      while i > 0 && |out| < limit
        invariant 0 <= i <= |idxs| && |out| <= limit
        invariant out == Reversed(Select(records, idxs[i..], tenant))
      {
        i := i - 1;
        var e := entries[idxs[i]];
        SelectPrepends(records, idxs, i, tenant);
        if Visible(e, tenant) {
          ReversedPrepends(e, Select(records, idxs[i + 1..], tenant));
          out := out + [e];
        }
      }
      ScannedFarEnough(records, idxs, i, out, limit, tenant);
      r := Reversed(out);
      DistinctTagsScan(records, tag, tenant);
    }
  }

  /** A backward scan that ran out of index, or of limit, has found the last `limit` entries. */
  lemma ScannedFarEnough(records: seq<Episode>, at: seq<nat>, i: nat, out: seq<Entry>, limit: nat,
                         tenant: Option<string>)
    requires forall j :: 0 <= j < |at| ==> at[j] < |records|
    requires i <= |at| && out == Reversed(Select(records, at[i..], tenant))
    requires |out| <= limit && (i == 0 || |out| == limit)
    ensures Reversed(out) == Last(Select(records, at, tenant), limit)
  {
    SelectAppends(records, at[..i], at[i..], tenant);
    assert at[..i] + at[i..] == at;
    assert Reversed(out) == Select(records, at[i..], tenant);
    if i == 0 {
      assert at[i..] == at;
    }
  }

  lemma SelectNone(records: seq<Episode>, tenant: Option<string>)
    ensures Select(records, [], tenant) == []
  {}

  lemma ReversedPrepends<T>(x: T, s: seq<T>)
    ensures Reversed([x] + s) == Reversed(s) + [x]
  {}

  lemma SelectPrepends(records: seq<Episode>, at: seq<nat>, i: nat, tenant: Option<string>)
    requires forall j :: 0 <= j < |at| ==> at[j] < |records|
    requires i < |at|
    ensures Select(records, at[i..], tenant) ==
      (if Visible(records[at[i]].entry, tenant) then [records[at[i]].entry] else [])
        + Select(records, at[i + 1..], tenant)
  {
    SelectOne(records, at[i], tenant);
    SelectAppends(records, [at[i]], at[i + 1..], tenant);
    assert [at[i]] + at[i + 1..] == at[i..];
  }

  lemma SelectOne(records: seq<Episode>, at: nat, tenant: Option<string>)
    requires at < |records|
    ensures Select(records, [at], tenant) ==
      if Visible(records[at].entry, tenant) then [records[at].entry] else []
  {
    assert [at][..0] == [];
    assert Select(records, [], tenant) == [];
  }
}
