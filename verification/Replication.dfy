/** Log entries, what they do to a cache, and replaying them. */
module Replays {
  import opened Wrappers

  type Bytes = seq<bv8>

  /** A cached value: text, raw bytes, or anything else together with its JSON form, if it has one. */
  datatype Value = Text(text: Bytes) | Blob(bytes: Bytes) | Other(id: nat, json: Option<Bytes>)

  /** What a cache holds under a key: the value and the lifetime it was stored with. */
  datatype Cell = Cell(value: Value, ttl: int)

  type Cache = map<string, Cell>

  datatype Entry = Entry(index: nat, term: nat, command: string, key: string, value: Bytes, valueType: string, ttl: int)

  /** What a key holds after an entry for it; None is a deletion. */
  function Effect(e: Entry): (r: Option<Cell>)
  {
    if e.command == "Set" then Some(Cell(if e.valueType == "string" then Text(e.value) else Blob(e.value), e.ttl))
    else None
  }

  predicate Known(e: Entry)
  {
    e.command == "Set" || e.command == "Del"
  }

  function Write(c: Cache, k: string, cell: Option<Cell>): (c': Cache)
  {
    if cell.Some? then c[k := cell.value] else c - {k}
  }

  /** An entry with an unknown command is an error and changes nothing. */
  function Apply(c: Cache, e: Entry): (c': Cache)
  {
    if Known(e) then Write(c, e.key, Effect(e)) else c
  }

  function Replay(c: Cache, log: seq<Entry>): (c': Cache)
    decreases |log|
  {
    if log == [] then c else Replay(Apply(c, log[0]), log[1..])
  }

  function At(c: Cache, k: string): (r: Option<Cell>)
  {
    if k in c then Some(c[k]) else None
  }

  predicate Touches(e: Entry, k: string)
  {
    Known(e) && e.key == k
  }

  /** The last entry that touches a key. */
  function LastWrite(log: seq<Entry>, k: string): (r: Option<Entry>)
  {
    if log == [] then None
    else if Touches(log[|log| - 1], k) then Some(log[|log| - 1])
    else LastWrite(log[..|log| - 1], k)
  }

  /** What the last write of a key in the log leaves, starting from nothing. */
  function LastEffect(log: seq<Entry>, k: string): (cell: Option<Cell>)
  {
    var last := LastWrite(log, k);
    if last.Some? then Effect(last.value) else None
  }

  lemma {:induction false} ReplayConcat(c: Cache, a: seq<Entry>, b: seq<Entry>)
    ensures Replay(c, a + b) == Replay(Replay(c, a), b)
    decreases |a|
  {
    if a == [] {
      assert a + b == b;
    } else {
      assert (a + b)[1..] == a[1..] + b;
      ReplayConcat(Apply(c, a[0]), a[1..], b);
    }
  }

  lemma ReplaySnoc(c: Cache, log: seq<Entry>, e: Entry)
    ensures Replay(c, log + [e]) == Apply(Replay(c, log), e)
  {
    ReplayConcat(c, log, [e]);
    assert [e][1..] == [];
  }

  /** After a replay a key holds what its last write left, or what it held before. */
  lemma {:induction false} ReplayIsLastWrite(c: Cache, log: seq<Entry>, k: string)
    ensures At(Replay(c, log), k) == if LastWrite(log, k).Some? then Effect(LastWrite(log, k).value) else At(c, k)
    decreases |log|
  {
    if log != [] {
      var rest, e := log[..|log| - 1], log[|log| - 1];
      ReplayIsLastWrite(c, rest, k);
      assert log == rest + [e];
      ReplaySnoc(c, rest, e);
    }
  }

  lemma {:induction false} LastWriteOfPrefix(log: seq<Entry>, n: nat, k: string)
    requires n <= |log| && LastWrite(log[..n], k).Some?
    ensures LastWrite(log, k).Some?
    decreases |log|
  {
    if n < |log| {
      assert log[..|log| - 1][..n] == log[..n];
      LastWriteOfPrefix(log[..|log| - 1], n, k);
    } else {
      assert log[..n] == log;
    }
  }

  lemma SameEverywhere(c: Cache, d: Cache)
    requires forall k :: At(c, k) == At(d, k)
    ensures c == d
  {
    forall k
      ensures (k in c <==> k in d) && (k in c && k in d ==> c[k] == d[k])
    {
      assert At(c, k) == At(d, k);
    }
  }

  /** Two logs replay to the same cache exactly if every key's last writes leave the same. */
  lemma ReplaysAgreeIff(a: seq<Entry>, b: seq<Entry>)
    ensures Replay(map[], a) == Replay(map[], b) <==> forall k :: LastEffect(a, k) == LastEffect(b, k)
  {
    forall k
      ensures At(Replay(map[], a), k) == LastEffect(a, k) && At(Replay(map[], b), k) == LastEffect(b, k)
    {
      ReplayIsLastWrite(map[], a, k);
      ReplayIsLastWrite(map[], b, k);
    }
    if forall k :: LastEffect(a, k) == LastEffect(b, k) {
      SameEverywhere(Replay(map[], a), Replay(map[], b));
    }
  }

  /** Replaying a log over a state that already saw a prefix of it. */
  lemma ReplayAfterPrefix(c: Cache, log: seq<Entry>, n: nat)
    requires n <= |log|
    ensures Replay(Replay(c, log[..n]), log) == Replay(c, log)
  {
    forall k
      ensures At(Replay(Replay(c, log[..n]), log), k) == At(Replay(c, log), k)
    {
      ReplayIsLastWrite(Replay(c, log[..n]), log, k);
      ReplayIsLastWrite(c, log, k);
      ReplayIsLastWrite(c, log[..n], k);
      if LastWrite(log[..n], k).Some? {
        LastWriteOfPrefix(log, n, k);
      }
    }
    SameEverywhere(Replay(Replay(c, log[..n]), log), Replay(c, log));
  }

  /** The state after replaying prefixes of a log one after the other. */
  function ReplayPrefixes(c: Cache, log: seq<Entry>, lengths: seq<nat>): (c': Cache)
    requires forall i :: 0 <= i < |lengths| ==> lengths[i] <= |log|
    decreases |lengths|
  {
    if lengths == [] then c
    else ReplayPrefixes(Replay(c, log[..lengths[0]]), log, lengths[1..])
  }

  /** Replaying a log over a state produced by any chain of its prefixes equals replaying it once. */
  lemma {:induction false} ReplayAfterPrefixes(c: Cache, log: seq<Entry>, lengths: seq<nat>)
    requires forall i :: 0 <= i < |lengths| ==> lengths[i] <= |log|
    ensures Replay(ReplayPrefixes(c, log, lengths), log) == Replay(c, log)
    decreases |lengths|
  {
    if lengths != [] {
      ReplayAfterPrefixes(Replay(c, log[..lengths[0]]), log, lengths[1..]);
      ReplayAfterPrefix(c, log, lengths[0]);
    }
  }
}

/** The replication log of cache/replication/replication_log.go. */
module ReplicationLogs {
  import opened Wrappers
  import opened Replays

  /** Indexes count from 1 without gaps. */
  ghost predicate Numbered(log: seq<Entry>)
  {
    forall i :: 0 <= i < |log| ==> log[i].index == i + 1
  }

  function Stamped(log: seq<Entry>, e: Entry): (e': Entry)
  {
    e.(index := |log| + 1)
  }

  /** The entries from an index on, at most max of them when max is positive. */
  function Page(log: seq<Entry>, start: nat, max: int): (page: seq<Entry>)
    ensures start <= |log| ==> start + |page| <= |log| && page == log[start..start + |page|]
    ensures start <= |log| ==> |page| == if max <= 0 || |log| - start <= max then |log| - start else max
    ensures start > |log| ==> page == []
  {
    if start >= |log| then []
    else if max <= 0 || start + max > |log| then log[start..]
    else log[start..start + max]
  }

  function LastTermOf(log: seq<Entry>): (r: nat)
  {
    if log == [] then 0 else log[|log| - 1].term
  }

  class MemoryReplicationLog {
    var entries: seq<Entry>
    var lastTerm: nat

    ghost predicate Valid()
      reads this
    {
      Numbered(entries)
    }

    constructor ()
      ensures Valid() && entries == [] && lastTerm == 0
    {
      entries, lastTerm := [], 0;
    }

    /** Stamps the entry with the next index; the term counter follows the last entry exactly if terms never fall. */
    method Append(entry: Option<Entry>) returns (ok: bool)
      requires Valid()
      modifies this
      ensures Valid() && ok == entry.Some?
      ensures entries == if ok then old(entries) + [Stamped(old(entries), entry.value)] else old(entries)
      ensures lastTerm >= old(lastTerm) && (ok ==> lastTerm >= entry.value.term)
      ensures lastTerm == old(lastTerm) || (ok && lastTerm == entry.value.term)
      ensures ok && old(lastTerm) == LastTermOf(old(entries)) ==>
                (lastTerm == LastTermOf(entries) <==> entry.value.term >= old(lastTerm))
    {
      if entry.None? {
        return false;
      }
      var e := entry.value;
      if |entries| == 0 {
        e := e.(index := 1);
      } else {
        e := e.(index := entries[|entries| - 1].index + 1);
      }
      if e.term > lastTerm {
        lastTerm := e.term;
      }
      entries := entries + [e];
      return true;
    }

    /** Finds the entry with the given index, if there is one. */
    method Get(index: nat) returns (r: Option<Entry>)
      requires Valid()
      ensures r.Some? ==> r.value in entries && r.value.index == index
      ensures r.None? ==> forall e :: e in entries ==> e.index != index
    {
      if |entries| == 0 {
        return None;
      }
      var firstIndex := entries[0].index;
      if index < firstIndex {
        return None;
      }
      var adjusted := index - firstIndex;
      if adjusted >= |entries| {
        return None;
      }
      return Some(entries[adjusted]);
    }

    /** Fails exactly on an empty log and on index 0. */
    method GetFrom(startIndex: nat, maxCount: int) returns (r: Option<seq<Entry>>)
      requires Valid()
      ensures r == if entries == [] || startIndex == 0 then None else Some(Page(entries, startIndex - 1, maxCount))
    {
      if |entries| == 0 {
        return None;
      }
      var firstIndex := entries[0].index;
      if startIndex < firstIndex {
        return None;
      }
      var adjusted := startIndex - firstIndex;
      if adjusted >= |entries| {
        return Some([]);
      }
      var endPos := adjusted + maxCount;
      if endPos > |entries| || maxCount <= 0 {
        endPos := |entries|;
      }
      return Some(entries[adjusted..endPos]);
    }

    method GetLastIndex() returns (index: nat)
      requires Valid()
      ensures index == |entries|
    {
      if |entries| == 0 {
        return 0;
      }
      return entries[|entries| - 1].index;
    }

    /** Keeps the entries up to an index. */
    method Truncate(index: nat) returns (ok: bool)
      requires Valid()
      modifies this
      ensures Valid() && ok == (old(entries) == [] || index > 0)
      ensures forall e :: e in entries <==> e in old(entries) && (!ok || e.index <= index)
      ensures |entries| <= |old(entries)| && entries == old(entries)[..|entries|]
      ensures lastTerm == if 0 < index <= |old(entries)| then LastTermOf(entries) else old(lastTerm)
    {
      if |entries| == 0 {
        return true;
      }
      var firstIndex := entries[0].index;
      if index < firstIndex {
        return false;
      }
      var adjusted := index - firstIndex;
      if adjusted >= |entries| {
        return true;
      }
      entries := entries[..adjusted + 1];
      lastTerm := entries[|entries| - 1].term;
      return true;
    }
  }
}

/** Paged catch-up and pushes: followers that copy a leader's log. */
module Catchups {
  import opened Wrappers
  import opened Replays
  import opened ReplicationLogs

  /** A replica's log and cache. */
  datatype Replica = Replica(log: seq<Entry>, cache: Cache)

  /** Entries are applied, then appended with the next index; the first unknown command stops the batch. */
  function Absorb(r: Replica, entries: seq<Entry>): (r': Replica)
    decreases |entries|
  {
    if entries == [] || !Known(entries[0]) then r
    else Absorb(Replica(r.log + [Stamped(r.log, entries[0])], Apply(r.cache, entries[0])), entries[1..])
  }

  /** One entry at a time. */
  lemma AbsorbUnfolds(r: Replica, entries: seq<Entry>, i: nat)
    requires i <= |entries|
    ensures i == |entries| || !Known(entries[i]) ==> Absorb(r, entries[i..]) == r
    ensures i < |entries| && Known(entries[i]) ==>
              Absorb(r, entries[i..]) ==
              Absorb(Replica(r.log + [Stamped(r.log, entries[i])], Apply(r.cache, entries[i])), entries[i + 1..])
  {
    if i < |entries| {
      assert entries[i..][1..] == entries[i + 1..];
    }
  }

  predicate AllKnown(log: seq<Entry>)
  {
    forall i :: 0 <= i < |log| ==> Known(log[i])
  }

  /** Whatever a replica is sent, its cache stays the replay of its own log. */
  lemma {:induction false} AbsorbKeepsReplay(r: Replica, entries: seq<Entry>)
    requires r.cache == Replay(map[], r.log)
    ensures var r' := Absorb(r, entries); r'.cache == Replay(map[], r'.log)
    decreases |entries|
  {
    if entries != [] && Known(entries[0]) {
      var e := Stamped(r.log, entries[0]);
      ReplaySnoc(map[], r.log, e);
      AbsorbKeepsReplay(Replica(r.log + [e], Apply(r.cache, entries[0])), entries[1..]);
    }
  }

  /** Entries that continue the replica's log are copied as they are. */
  lemma {:induction false} AbsorbAppends(r: Replica, entries: seq<Entry>)
    requires AllKnown(entries) && Numbered(r.log + entries)
    ensures Absorb(r, entries) == Replica(r.log + entries, Replay(r.cache, entries))
    decreases |entries|
  {
    if entries == [] {
      assert r.log + entries == r.log;
    } else {
      var e := entries[0];
      assert (r.log + entries)[|r.log|] == e;
      assert r.log + [e] + entries[1..] == r.log + entries;
      AbsorbAppends(Replica(r.log + [e], Apply(r.cache, e)), entries[1..]);
    }
  }

  /** In any case the cache sees exactly the replay of known entries. */
  lemma {:induction false} AbsorbReplays(r: Replica, entries: seq<Entry>)
    requires AllKnown(entries)
    ensures Absorb(r, entries).cache == Replay(r.cache, entries)
    decreases |entries|
  {
    if entries != [] {
      AbsorbReplays(Replica(r.log + [Stamped(r.log, entries[0])], Apply(r.cache, entries[0])), entries[1..]);
    }
  }

  datatype Response = Response(entries: seq<Entry>, nextIndex: nat)

  /** The answer to a sync request; None is the error of asking an empty log for a later index. */
  function Answer(log: seq<Entry>, lastLogIndex: nat, fullSync: bool, max: int): (r: Option<Response>)
  {
    var start := if fullSync then 0 else lastLogIndex;
    if log == [] then if start > 0 then None else Some(Response([], 0))
    else
      var page := Page(log, start, max);
      Some(Response(page, if page == [] then |log| else start + |page|))
  }

  /** A sync attempt in progress: the replica and the index of its next request. */
  datatype Session = Session(replica: Replica, next: nat)

  /** One page: request, answer, application. A failed request ends the attempt. */
  function PageStep(s: Session, leaderLog: seq<Entry>, max: int): (s': Session)
  {
    match Answer(leaderLog, s.next, false, max)
    case None => s
    case Some(a) => Session(Absorb(s.replica, a.entries), a.nextIndex)
  }

  ghost predicate IsPrefix(a: seq<Entry>, b: seq<Entry>)
  {
    |a| <= |b| && a == b[..|a|]
  }

  /** The replica copied a prefix of the leader's log, holds its replay and asks for what follows. */
  ghost predicate Following(s: Session, leaderLog: seq<Entry>)
  {
    && IsPrefix(s.replica.log, leaderLog)
    && s.replica.cache == Replay(map[], s.replica.log)
    && s.next == |s.replica.log|
  }

  /** A page advances by min(max, remaining) entries and keeps the replica following; a caught-up replica is left
      alone. */
  lemma PageAdvances(s: Session, leaderLog: seq<Entry>, max: int)
    requires Numbered(leaderLog) && AllKnown(leaderLog) && Following(s, leaderLog)
    ensures var s' := PageStep(s, leaderLog, max);
            var rest := |leaderLog| - s.next;
            && Following(s', leaderLog)
            && s'.next == s.next + (if max <= 0 || rest <= max then rest else max)
            && (rest == 0 ==> s' == s)
  {
    var page := Page(leaderLog, s.next, max);
    var r := s.replica;
    assert r.log + page == leaderLog[..s.next + |page|];
    AbsorbAppends(r, page);
    ReplayConcat(map[], r.log, page);
    if page == [] {
      assert r.log + page == r.log;
    }
  }

  /** Pages served from a log that may have grown since the last one. */
  function PageRun(s: Session, logs: seq<seq<Entry>>, max: int): (s': Session)
    decreases |logs|
  {
    if logs == [] then s else PageRun(PageStep(s, logs[0], max), logs[1..], max)
  }

  ghost predicate Growing(log: seq<Entry>, logs: seq<seq<Entry>>)
    decreases |logs|
  {
    logs != [] ==> IsPrefix(log, logs[0]) && Growing(logs[0], logs[1..])
  }

  ghost predicate WellFormed(logs: seq<seq<Entry>>)
  {
    forall i :: 0 <= i < |logs| ==> Numbered(logs[i]) && AllKnown(logs[i])
  }

  lemma PrefixTransitive(a: seq<Entry>, b: seq<Entry>, c: seq<Entry>)
    requires IsPrefix(a, b) && IsPrefix(b, c)
    ensures IsPrefix(a, c)
  {
    assert b[..|a|] == c[..|a|];
  }

  /** However the leader's log grows between pages, the replica stays a prefix of it with the replay as its cache. */
  lemma {:induction false} PagesFollow(s: Session, leaderLog: seq<Entry>, logs: seq<seq<Entry>>, max: int)
    requires Following(s, leaderLog) && Growing(leaderLog, logs) && WellFormed(logs)
    ensures Following(PageRun(s, logs, max), if logs == [] then leaderLog else logs[|logs| - 1])
    decreases |logs|
  {
    if logs != [] {
      assert Numbered(logs[0]) && AllKnown(logs[0]);
      PrefixTransitive(s.replica.log, leaderLog, logs[0]);
      PageAdvances(s, logs[0], max);
      PagesFollow(PageStep(s, logs[0], max), logs[0], logs[1..], max);
    }
  }

  /** Enough pages of a log at rest copy all of it. */
  lemma {:induction false} PagesConverge(s: Session, leaderLog: seq<Entry>, n: nat, max: int)
    requires Numbered(leaderLog) && AllKnown(leaderLog) && Following(s, leaderLog)
    requires (max <= 0 && n > 0) || n * max >= |leaderLog| - s.next
    ensures PageRun(s, seq(n, i => leaderLog), max)
         == Session(Replica(leaderLog, Replay(map[], leaderLog)), |leaderLog|)
    decreases n
  {
    var logs := seq(n, i => leaderLog);
    if n == 0 {
      assert s.replica.log == leaderLog;
    } else {
      PageAdvances(s, leaderLog, max);
      var s' := PageStep(s, leaderLog, max);
      assert logs[1..] == seq(n - 1, i => leaderLog);
      if s'.next == |leaderLog| {
        AtRest(s', leaderLog, n - 1, max);
      } else {
        assert (n - 1) * max == n * max - max;
        PagesConverge(s', leaderLog, n - 1, max);
      }
    }
  }

  lemma {:induction false} AtRest(s: Session, leaderLog: seq<Entry>, n: nat, max: int)
    requires Numbered(leaderLog) && AllKnown(leaderLog) && Following(s, leaderLog) && s.next == |leaderLog|
    ensures PageRun(s, seq(n, i => leaderLog), max) == s
    ensures s == Session(Replica(leaderLog, Replay(map[], leaderLog)), |leaderLog|)
    decreases n
  {
    assert s.replica.log == leaderLog;
    if n > 0 {
      PageAdvances(s, leaderLog, max);
      assert seq(n, i => leaderLog)[1..] == seq(n - 1, i => leaderLog);
      AtRest(s, leaderLog, n - 1, max);
    }
  }

  // Full sync: the same pages, asked for from the start whatever the replica already has

  /** Entries as a log of length n renumbers them. */
  function Restamped(n: nat, entries: seq<Entry>): (r: seq<Entry>)
    ensures |r| == |entries|
    ensures forall i :: 0 <= i < |entries| ==> r[i] == entries[i].(index := n + 1 + i)
  {
    seq(|entries|, i requires 0 <= i < |entries| => entries[i].(index := n + 1 + i))
  }

  /** Known entries are all appended, renumbered, and replayed. */
  lemma {:induction false} AbsorbRestamps(r: Replica, entries: seq<Entry>)
    requires AllKnown(entries)
    ensures Absorb(r, entries) == Replica(r.log + Restamped(|r.log|, entries), Replay(r.cache, entries))
    decreases |entries|
  {
    if entries == [] {
      assert r.log + Restamped(|r.log|, entries) == r.log;
    } else {
      var e := Stamped(r.log, entries[0]);
      AbsorbRestamps(Replica(r.log + [e], Apply(r.cache, entries[0])), entries[1..]);
      assert r.log + [e] + Restamped(|r.log| + 1, entries[1..]) == r.log + Restamped(|r.log|, entries);
    }
  }

  /** The replica r after the first entries of the leader's log were sent to it, whatever it had before. */
  ghost predicate SentOver(s: Session, r: Replica, leaderLog: seq<Entry>)
  {
    && s.next <= |leaderLog|
    && s.replica == Replica(r.log + Restamped(|r.log|, leaderLog[..s.next]), Replay(r.cache, leaderLog[..s.next]))
  }

  lemma PageSentOver(s: Session, r: Replica, leaderLog: seq<Entry>, max: int)
    requires AllKnown(leaderLog) && SentOver(s, r, leaderLog)
    ensures var s' := PageStep(s, leaderLog, max);
            var rest := |leaderLog| - s.next;
            SentOver(s', r, leaderLog) && s'.next == s.next + (if max <= 0 || rest <= max then rest else max)
  {
    hide Absorb, Replay, Restamped, AllKnown, Page;
    var page, done := Page(leaderLog, s.next, max), leaderLog[..s.next];
    PageKnown(leaderLog, s.next, max);
    AbsorbRestamps(s.replica, page);
    ReplayConcat(r.cache, done, page);
    assert done + page == leaderLog[..s.next + |page|];
    RestampConcat(r.log, done, page);
  }

  lemma PageKnown(leaderLog: seq<Entry>, start: nat, max: int)
    requires AllKnown(leaderLog)
    ensures AllKnown(Page(leaderLog, start, max))
  {
  }

  lemma RestampConcat(log: seq<Entry>, a: seq<Entry>, b: seq<Entry>)
    ensures log + Restamped(|log|, a) + Restamped(|log| + |a|, b) == log + Restamped(|log|, a + b)
  {
    assert Restamped(|log|, a) + Restamped(|log| + |a|, b) == Restamped(|log|, a + b);
  }

  lemma {:induction false} PagesSentOver(s: Session, r: Replica, leaderLog: seq<Entry>, n: nat, max: int)
    requires AllKnown(leaderLog) && SentOver(s, r, leaderLog)
    requires s.next == |leaderLog| || (max <= 0 && n > 0) || (max > 0 && n * max >= |leaderLog| - s.next)
    ensures var t := PageRun(s, seq(n, i => leaderLog), max);
            SentOver(t, r, leaderLog) && t.next == |leaderLog|
    decreases n
  {
    if n > 0 {
      PageSentOver(s, r, leaderLog, max);
      assert seq(n, i => leaderLog)[1..] == seq(n - 1, i => leaderLog);
      assert (n - 1) * max == n * max - max;
      PagesSentOver(PageStep(s, leaderLog, max), r, leaderLog, n - 1, max);
    }
  }

  /** A full sync replays the leader's log over the replica's cache. Its log ends up equal to the leader's exactly
      if it was empty before; a cache that was the replay of a prefix ends up right in any case. */
  lemma FullSyncCopiesIffEmpty(r: Replica, leaderLog: seq<Entry>, n: nat, max: int)
    requires Numbered(leaderLog) && AllKnown(leaderLog)
    requires (max <= 0 && n > 0) || (max > 0 && n * max >= |leaderLog|)
    ensures Answer(leaderLog, 0, true, max) == Answer(leaderLog, 0, false, max)
    ensures var t := PageRun(Session(r, 0), seq(n, i => leaderLog), max).replica;
            && (t.log == leaderLog <==> r.log == [])
            && t.cache == Replay(r.cache, leaderLog)
            && ((exists m: nat :: m <= |leaderLog| && r.cache == Replay(map[], leaderLog[..m])) ==>
                  t.cache == Replay(map[], leaderLog))
  {
    hide Absorb, Replay, Restamped, PageRun, AllKnown;
    FullySent(r, leaderLog, n, max);
    RestampedIsLog(r.log, leaderLog);
    if m: nat :| m <= |leaderLog| && r.cache == Replay(map[], leaderLog[..m]) {
      ReplayAfterPrefix(map[], leaderLog, m);
    }
  }

  lemma FullySent(r: Replica, leaderLog: seq<Entry>, n: nat, max: int)
    requires AllKnown(leaderLog) && ((max <= 0 && n > 0) || (max > 0 && n * max >= |leaderLog|))
    ensures PageRun(Session(r, 0), seq(n, i => leaderLog), max).replica ==
            Replica(r.log + Restamped(|r.log|, leaderLog), Replay(r.cache, leaderLog))
  {
    assert r.log + Restamped(|r.log|, leaderLog[..0]) == r.log;
    hide Absorb, Restamped, PageRun, AllKnown;
    PagesSentOver(Session(r, 0), r, leaderLog, n, max);
    assert leaderLog[..|leaderLog|] == leaderLog;
  }

  lemma RestampedIsLog(log: seq<Entry>, leaderLog: seq<Entry>)
    requires Numbered(leaderLog)
    ensures log + Restamped(|log|, leaderLog) == leaderLog <==> log == []
  {
    if log == [] {
      assert log + Restamped(0, leaderLog) == leaderLog;
    } else {
      assert |log + Restamped(|log|, leaderLog)| != |leaderLog|;
    }
  }

  /** Witness: the leader's only entry is appended a second time. */
  lemma FullSyncDuplicates(e: Entry)
    requires e.index == 1 && Known(e)
    ensures PageStep(Session(Replica([e], Replay(map[], [e])), 0), [e], 10).replica.log == [e, e.(index := 2)]
  {
    var r := Replica([e], Replay(map[], [e]));
    assert Page([e], 0, 10) == [e];
    AbsorbRestamps(r, [e]);
  }

  // Pushes by the leader: always from index 1, at most max entries

  function Push(r: Replica, leaderLog: seq<Entry>, max: int): (r': Replica)
  {
    Absorb(r, Page(leaderLog, 0, max))
  }

  function Pushes(r: Replica, logs: seq<seq<Entry>>, max: int): (r': Replica)
    decreases |logs|
  {
    if logs == [] then r else Pushes(Push(r, logs[0], max), logs[1..], max)
  }

  function Sent(n: nat, max: int): (r: nat)
  {
    if max <= 0 || n <= max then n else max
  }

  /** A replica whose cache is the replay of a prefix, pushed to while the log grows, ends with the replay of
      the first max entries of the last log pushed, however often entries were sent again. */
  lemma {:induction false} PushesReplayOnce(r: Replica, leaderLog: seq<Entry>, logs: seq<seq<Entry>>, max: int)
    requires Growing(leaderLog, logs) && WellFormed(logs) && logs != []
    requires r.cache == Replay(map[], leaderLog[..Sent(|leaderLog|, max)])
    ensures var last := logs[|logs| - 1];
            Pushes(r, logs, max).cache == Replay(map[], last[..Sent(|last|, max)])
    decreases |logs|
  {
    var log := logs[0];
    var m, n := Sent(|leaderLog|, max), Sent(|log|, max);
    var page := Page(log, 0, max);
    assert page == log[..n] && AllKnown(page);
    AbsorbReplays(r, page);
    assert page[..m] == leaderLog[..m];
    ReplayAfterPrefix(map[], page, m);
    if |logs| > 1 {
      PushesReplayOnce(Push(r, log, max), log, logs[1..], max);
    }
  }

  /** From scratch: logs of at most max entries are replicated completely. */
  lemma PushesReachLeader(logs: seq<seq<Entry>>, max: int)
    requires logs != [] && Growing([], logs) && WellFormed(logs)
    requires max <= 0 || |logs[|logs| - 1]| <= max
    ensures Pushes(Replica([], map[]), logs, max).cache == Replay(map[], logs[|logs| - 1])
  {
    var last := logs[|logs| - 1];
    PushesReplayOnce(Replica([], map[]), [], logs, max);
    assert last[..|last|] == last;
  }

  /** Pushes leave the leader's replay exactly if no key's last write left something else than its last write
      among the entries sent. */
  lemma PushesReachLeaderIff(logs: seq<seq<Entry>>, max: int)
    requires logs != [] && Growing([], logs) && WellFormed(logs)
    ensures var last := logs[|logs| - 1];
            Pushes(Replica([], map[]), logs, max).cache == Replay(map[], last) <==>
              forall k :: LastEffect(last[..Sent(|last|, max)], k) == LastEffect(last, k)
  {
    var last := logs[|logs| - 1];
    PushesReplayOnce(Replica([], map[]), [], logs, max);
    ReplaysAgreeIff(last[..Sent(|last|, max)], last);
  }

  /** A key first written after entry number max never arrives. */
  lemma BeyondMaxNeverArrives(logs: seq<seq<Entry>>, max: int, k: string)
    requires logs != [] && Growing([], logs) && WellFormed(logs)
    requires 0 < max < |logs[|logs| - 1]| && LastWrite(logs[|logs| - 1][..max], k).None?
    ensures k !in Pushes(Replica([], map[]), logs, max).cache
  {
    PushesReplayOnce(Replica([], map[]), [], logs, max);
    ReplayIsLastWrite(map[], logs[|logs| - 1][..max], k);
  }
}

/** The leader's write path: local write, log append and queueing by any number of writers, and the worker that
    applies the queue again. */
module LeaderWrites {
  import opened Wrappers
  import opened Replays
  import opened ReplicationLogs

  datatype Write = WriteSet(key: string, value: Value, ttl: int) | WriteDel(key: string)

  /** Where a writer is: about to start, after its local write, or after its append. */
  datatype Writer = Idle | Wrote(op: Write) | Logged(entry: Entry)

  /** sent records, in order, every entry that ever entered the queue. */
  datatype Leader = Leader(cache: Cache, log: seq<Entry>, queue: seq<Entry>, writers: seq<Writer>, sent: seq<Entry>)

  datatype Action = Local(w: nat, op: Write) | Append(w: nat) | Send(w: nat) | Process

  /** Text and bytes are logged as they are, other values as JSON if they have a JSON form. */
  function Encode(v: Value): (r: Option<Bytes>)
  {
    match v
    case Text(t) => Some(t)
    case Blob(b) => Some(b)
    case Other(_, json) => json
  }

  /** The entry recorded for a write, before it gets its index; the term is always 1. */
  function Recorded(op: Write): (r: Option<Entry>)
  {
    match op
    case WriteSet(k, v, ttl) =>
      if Encode(v).None? then None else Some(Entry(0, 1, "Set", k, Encode(v).value, "string", ttl))
    case WriteDel(k) => Some(Entry(0, 1, "Del", k, [], "", 0))
  }

  function LocalEffect(op: Write): (r: Option<Cell>)
  {
    match op
    case WriteSet(_, v, ttl) => Some(Cell(v, ttl))
    case WriteDel(_) => None
  }

  predicate Enabled(s: Leader, a: Action)
  {
    match a
    case Local(w, _) => w < |s.writers| && s.writers[w].Idle?
    case Append(w) => w < |s.writers| && s.writers[w].Wrote?
    case Send(w) => w < |s.writers| && s.writers[w].Logged?
    case Process => s.queue != []
  }

  function Move(s: Leader, w: nat, pc: Writer): (s': Leader)
    requires w < |s.writers|
  {
    s.(writers := s.writers[w := pc])
  }

  function Step(s: Leader, a: Action, capacity: nat): (s': Leader)
    requires Enabled(s, a)
  {
    match a
    case Local(w, op) => Move(s, w, Wrote(op)).(cache := Replays.Write(s.cache, op.key, LocalEffect(op)))
    case Append(w) =>
      var entry := Recorded(s.writers[w].op);
      if entry.None? then Move(s, w, Idle)
      else
        var e := Stamped(s.log, entry.value);
        Move(s, w, Logged(e)).(log := s.log + [e])
    case Send(w) =>
      var e := s.writers[w].entry;
      if |s.queue| < capacity then Move(s, w, Idle).(queue := s.queue + [e], sent := s.sent + [e]) else Move(s, w, Idle)
    case Process => s.(cache := Apply(s.cache, s.queue[0]), queue := s.queue[1..])
  }

  /** The key a writer is busy with. */
  function Busy(pc: Writer): (r: Option<string>)
  {
    match pc
    case Idle => None
    case Wrote(op) => Some(op.key)
    case Logged(e) => Some(e.key)
  }

  /** The value can be encoded and the queue has room. */
  predicate Roomy(s: Leader, a: Action, capacity: nat)
    requires Enabled(s, a)
  {
    match a
    case Append(w) => Recorded(s.writers[w].op).Some?
    case Send(_) => |s.queue| < capacity
    case _ => true
  }

  /** Moreover, no two writers are between append and send on one key. */
  ghost predicate Smooth(s: Leader, a: Action, capacity: nat)
    requires Enabled(s, a)
  {
    && Roomy(s, a, capacity)
    && (a.Append? ==> forall v :: 0 <= v < |s.writers| && s.writers[v].Logged? ==>
          s.writers[v].entry.key != s.writers[a.w].op.key)
  }

  ghost predicate Quiet(s: Leader, k: string)
  {
    forall w :: 0 <= w < |s.writers| ==> Busy(s.writers[w]) != Some(k)
  }

  /** The key's value once the queue is applied. */
  ghost function Drained(s: Leader, k: string): (r: Option<Cell>)
  {
    At(Replay(s.cache, s.queue), k)
  }

  ghost function Replayed(s: Leader, k: string): (r: Option<Cell>)
  {
    At(Replay(map[], s.log), k)
  }

  /** An appended and not yet sent entry is the last write of its key. */
  ghost predicate UnsentIsLast(s: Leader)
  {
    && (forall w :: 0 <= w < |s.writers| && s.writers[w].Logged? ==>
          Known(s.writers[w].entry) && Effect(s.writers[w].entry) == Replayed(s, s.writers[w].entry.key))
    && (forall v, w :: 0 <= v < w < |s.writers| && s.writers[v].Logged? && s.writers[w].Logged? ==>
          s.writers[v].entry.key != s.writers[w].entry.key)
  }

  /** A key no writer is busy with will hold the log's value once the queue is applied. */
  ghost predicate Inv(s: Leader)
  {
    UnsentIsLast(s) && forall k :: Quiet(s, k) ==> Drained(s, k) == Replayed(s, k)
  }

  lemma RecordedTouches(op: Write)
    requires Recorded(op).Some?
    ensures Known(Recorded(op).value) && Recorded(op).value.key == op.key
  {
  }

  lemma ReplayElsewhere(c: Cache, d: Cache, log: seq<Entry>, k: string)
    requires At(c, k) == At(d, k)
    ensures At(Replay(c, log), k) == At(Replay(d, log), k)
  {
    ReplayIsLastWrite(c, log, k);
    ReplayIsLastWrite(d, log, k);
  }

  lemma ReplayMore(c: Cache, log: seq<Entry>, e: Entry, k: string)
    requires Known(e)
    ensures At(Replay(c, log + [e]), k) == if k == e.key then Effect(e) else At(Replay(c, log), k)
  {
    ReplaySnoc(c, log, e);
  }

  /** Moving one writer leaves the others' keys busy. */
  lemma QuietBefore(s: Leader, s': Leader, w: nat, k: string)
    requires w < |s.writers| == |s'.writers| && s'.writers == s.writers[w := s'.writers[w]]
    requires Quiet(s', k) && Busy(s.writers[w]) != Some(k)
    ensures Quiet(s, k)
  {
    forall v | 0 <= v < |s.writers|
      ensures Busy(s.writers[v]) != Some(k)
    {
      assert v != w ==> s'.writers[v] == s.writers[v];
    }
  }

  lemma LocalKeepsInv(s: Leader, w: nat, op: Write, capacity: nat)
    requires Inv(s) && Enabled(s, Local(w, op))
    ensures Inv(Step(s, Local(w, op), capacity))
  {
    hide Replay;
    var s' := Step(s, Local(w, op), capacity);
    forall k | Quiet(s', k)
      ensures Drained(s', k) == Replayed(s', k)
    {
      assert Busy(s'.writers[w]) != Some(k);
      QuietBefore(s, s', w, k);
      ReplayElsewhere(s.cache, s'.cache, s.queue, k);
    }
  }

  lemma AppendKeepsInv(s: Leader, w: nat, capacity: nat)
    requires Inv(s) && Enabled(s, Action.Append(w)) && Smooth(s, Action.Append(w), capacity)
    ensures Inv(Step(s, Action.Append(w), capacity))
  {
    hide Replay;
    var s' := Step(s, Action.Append(w), capacity);
    var op := s.writers[w].op;
    RecordedTouches(op);
    var e := Stamped(s.log, Recorded(op).value);
    forall k
      ensures Replayed(s', k) == if k == op.key then Effect(e) else Replayed(s, k)
    {
      ReplayMore(map[], s.log, e, k);
    }
    forall k | Quiet(s', k)
      ensures Drained(s', k) == Replayed(s', k)
    {
      assert Busy(s'.writers[w]) != Some(k);
      QuietBefore(s, s', w, k);
    }
  }

  lemma SendKeepsInv(s: Leader, w: nat, capacity: nat)
    requires Inv(s) && Enabled(s, Send(w)) && Smooth(s, Send(w), capacity)
    ensures Inv(Step(s, Send(w), capacity))
  {
    hide Replay;
    var s' := Step(s, Send(w), capacity);
    var e := s.writers[w].entry;
    forall k | Quiet(s', k)
      ensures Drained(s', k) == Replayed(s', k)
    {
      ReplayMore(s.cache, s.queue, e, k);
      if k != e.key {
        QuietBefore(s, s', w, k);
      }
    }
  }

  lemma StepKeepsInv(s: Leader, a: Action, capacity: nat)
    requires Inv(s) && Enabled(s, a) && Smooth(s, a, capacity)
    ensures Inv(Step(s, a, capacity))
  {
    match a
    case Local(w, op) => LocalKeepsInv(s, w, op, capacity);
    case Append(w) => AppendKeepsInv(s, w, capacity);
    case Send(w) => SendKeepsInv(s, w, capacity);
    case Process =>
      var s' := Step(s, a, capacity);
      assert forall k :: Quiet(s', k) == Quiet(s, k) && Drained(s', k) == Drained(s, k);
  }

  ghost predicate Runs(s: Leader, actions: seq<Action>, capacity: nat)
    decreases |actions|
  {
    actions != [] ==> Enabled(s, actions[0]) && Runs(Step(s, actions[0], capacity), actions[1..], capacity)
  }

  ghost predicate SmoothRun(s: Leader, actions: seq<Action>, capacity: nat)
    requires Runs(s, actions, capacity)
    decreases |actions|
  {
    actions != [] ==>
      Smooth(s, actions[0], capacity) && SmoothRun(Step(s, actions[0], capacity), actions[1..], capacity)
  }

  ghost predicate RoomyRun(s: Leader, actions: seq<Action>, capacity: nat)
    requires Runs(s, actions, capacity)
    decreases |actions|
  {
    actions != [] ==>
      Roomy(s, actions[0], capacity) && RoomyRun(Step(s, actions[0], capacity), actions[1..], capacity)
  }

  ghost function RunTo(s: Leader, actions: seq<Action>, capacity: nat): (s': Leader)
    requires Runs(s, actions, capacity)
    decreases |actions|
  {
    if actions == [] then s else RunTo(Step(s, actions[0], capacity), actions[1..], capacity)
  }

  function Start(writers: nat): (s: Leader)
  {
    Leader(map[], [], [], seq(writers, i => Idle), [])
  }

  predicate AllIdle(s: Leader)
  {
    forall w :: 0 <= w < |s.writers| ==> s.writers[w].Idle?
  }

  lemma {:induction false} RunKeepsInv(s: Leader, actions: seq<Action>, capacity: nat)
    requires Inv(s) && Runs(s, actions, capacity) && SmoothRun(s, actions, capacity)
    ensures Inv(RunTo(s, actions, capacity))
    decreases |actions|
  {
    if actions != [] {
      StepKeepsInv(s, actions[0], capacity);
      RunKeepsInv(Step(s, actions[0], capacity), actions[1..], capacity);
    }
  }

  /** Between writes the invariant says exactly that the drained cache is the replay of the log. */
  lemma IdleAgrees(s: Leader)
    requires AllIdle(s)
    ensures Inv(s) <==> Replay(s.cache, s.queue) == Replay(map[], s.log)
    ensures Inv(s) && s.queue == [] ==> s.cache == Replay(map[], s.log)
  {
    assert forall k :: Quiet(s, k);
    if Inv(s) {
      forall k
        ensures At(Replay(s.cache, s.queue), k) == At(Replay(map[], s.log), k)
      {
        assert Drained(s, k) == Replayed(s, k);
      }
      SameEverywhere(Replay(s.cache, s.queue), Replay(map[], s.log));
    }
  }

  /** Quiescent consistency: between writes, applying the pending queue gives the replay of the log, so an
      empty queue means that the cache is the replay of the log. */
  lemma QuiescentConsistency(writers: nat, actions: seq<Action>, capacity: nat)
    requires Runs(Start(writers), actions, capacity) && SmoothRun(Start(writers), actions, capacity)
    ensures var s := RunTo(Start(writers), actions, capacity);
            && (AllIdle(s) ==> Replay(s.cache, s.queue) == Replay(map[], s.log))
            && (AllIdle(s) && s.queue == [] ==> s.cache == Replay(map[], s.log))
  {
    RunKeepsInv(Start(writers), actions, capacity);
    var s := RunTo(Start(writers), actions, capacity);
    if AllIdle(s) {
      IdleAgrees(s);
    }
  }

  /** A single writer never meets another one between append and send. */
  lemma {:induction false} OneWriterIsSmooth(s: Leader, actions: seq<Action>, capacity: nat)
    requires |s.writers| == 1 && Runs(s, actions, capacity) && RoomyRun(s, actions, capacity)
    ensures SmoothRun(s, actions, capacity)
    decreases |actions|
  {
    if actions != [] {
      OneWriterIsSmooth(Step(s, actions[0], capacity), actions[1..], capacity);
    }
  }

  /** With one writer, encodable values and room in the queue every run is consistent between writes. */
  lemma OneWriterConsistency(actions: seq<Action>, capacity: nat)
    requires Runs(Start(1), actions, capacity) && RoomyRun(Start(1), actions, capacity)
    ensures var s := RunTo(Start(1), actions, capacity);
            && Inv(s)
            && (AllIdle(s) ==> Replay(s.cache, s.queue) == Replay(map[], s.log))
            && (AllIdle(s) && s.queue == [] ==> s.cache == Replay(map[], s.log))
  {
    OneWriterIsSmooth(Start(1), actions, capacity);
    RunKeepsInv(Start(1), actions, capacity);
    QuiescentConsistency(1, actions, capacity);
  }

  // Overlapping writers: the queue decides, not the log

  /** A key no writer is busy with will hold what was last sent for it. */
  ghost predicate SentInv(s: Leader)
  {
    && (forall w :: 0 <= w < |s.writers| && s.writers[w].Logged? ==> Known(s.writers[w].entry))
    && (forall k :: Quiet(s, k) ==> Drained(s, k) == At(Replay(map[], s.sent), k))
  }

  lemma LocalKeepsSent(s: Leader, w: nat, op: Write, capacity: nat)
    requires SentInv(s) && Enabled(s, Local(w, op))
    ensures SentInv(Step(s, Local(w, op), capacity))
  {
    hide Replay;
    var s' := Step(s, Local(w, op), capacity);
    forall k | Quiet(s', k)
      ensures Drained(s', k) == At(Replay(map[], s'.sent), k)
    {
      assert Busy(s'.writers[w]) != Some(k);
      QuietBefore(s, s', w, k);
      ReplayElsewhere(s.cache, s'.cache, s.queue, k);
    }
  }

  lemma AppendKeepsSent(s: Leader, w: nat, capacity: nat)
    requires SentInv(s) && Enabled(s, Action.Append(w)) && Roomy(s, Action.Append(w), capacity)
    ensures SentInv(Step(s, Action.Append(w), capacity))
  {
    hide Replay;
    var s' := Step(s, Action.Append(w), capacity);
    RecordedTouches(s.writers[w].op);
    forall k | Quiet(s', k)
      ensures Drained(s', k) == At(Replay(map[], s'.sent), k)
    {
      assert Busy(s'.writers[w]) != Some(k);
      QuietBefore(s, s', w, k);
    }
  }

  lemma SendKeepsSent(s: Leader, w: nat, capacity: nat)
    requires SentInv(s) && Enabled(s, Send(w)) && Roomy(s, Send(w), capacity)
    ensures SentInv(Step(s, Send(w), capacity))
  {
    hide Replay;
    var s' := Step(s, Send(w), capacity);
    var e := s.writers[w].entry;
    forall k | Quiet(s', k)
      ensures Drained(s', k) == At(Replay(map[], s'.sent), k)
    {
      ReplayMore(s.cache, s.queue, e, k);
      ReplayMore(map[], s.sent, e, k);
      if k != e.key {
        QuietBefore(s, s', w, k);
      }
    }
  }

  lemma StepKeepsSent(s: Leader, a: Action, capacity: nat)
    requires SentInv(s) && Enabled(s, a) && Roomy(s, a, capacity)
    ensures SentInv(Step(s, a, capacity))
  {
    match a
    case Local(w, op) => LocalKeepsSent(s, w, op, capacity);
    case Append(w) => AppendKeepsSent(s, w, capacity);
    case Send(w) => SendKeepsSent(s, w, capacity);
    case Process =>
      var s' := Step(s, a, capacity);
      assert forall k :: Quiet(s', k) == Quiet(s, k) && Drained(s', k) == Drained(s, k);
  }

  lemma {:induction false} RunKeepsSent(s: Leader, actions: seq<Action>, capacity: nat)
    requires SentInv(s) && Runs(s, actions, capacity) && RoomyRun(s, actions, capacity)
    ensures SentInv(RunTo(s, actions, capacity))
    decreases |actions|
  {
    if actions != [] {
      StepKeepsSent(s, actions[0], capacity);
      RunKeepsSent(Step(s, actions[0], capacity), actions[1..], capacity);
    }
  }

  /** However the writers overlap, between writes the drained cache is the replay of what was sent; so it is the
      replay of the log exactly if for every key the last entry sent and the last entry appended leave the same. */
  lemma OverlappingWritersAgreeIff(writers: nat, actions: seq<Action>, capacity: nat)
    requires Runs(Start(writers), actions, capacity) && RoomyRun(Start(writers), actions, capacity)
    requires AllIdle(RunTo(Start(writers), actions, capacity))
    ensures var s := RunTo(Start(writers), actions, capacity);
            && Replay(s.cache, s.queue) == Replay(map[], s.sent)
            && (Replay(s.cache, s.queue) == Replay(map[], s.log) <==>
                  forall k :: LastEffect(s.sent, k) == LastEffect(s.log, k))
  {
    RunKeepsSent(Start(writers), actions, capacity);
    var s := RunTo(Start(writers), actions, capacity);
    forall k
      ensures At(Replay(s.cache, s.queue), k) == At(Replay(map[], s.sent), k)
    {
      assert Quiet(s, k);
      assert Drained(s, k) == At(Replay(map[], s.sent), k);
    }
    SameEverywhere(Replay(s.cache, s.queue), Replay(map[], s.sent));
    ReplaysAgreeIff(s.sent, s.log);
  }

  // What the harmful steps do

  /** An entry dropped by a full queue does no harm exactly if its key has a busy writer or ends up right anyway:
      by the last entry queued for it or, without one, by the cached value. */
  lemma OverflowHarmlessIff(s: Leader, w: nat, capacity: nat)
    requires Inv(s) && Enabled(s, Send(w)) && |s.queue| >= capacity
    ensures var s' := Step(s, Send(w), capacity);
            var e := s.writers[w].entry;
            var last := LastWrite(s.queue, e.key);
            Inv(s') <==>
              (!Quiet(s', e.key) || Effect(e) == if last.Some? then Effect(last.value) else At(s.cache, e.key))
  {
    hide Replay;
    var s' := Step(s, Send(w), capacity);
    var e := s.writers[w].entry;
    ReplayIsLastWrite(s.cache, s.queue, e.key);
    forall k | Quiet(s', k) && k != e.key
      ensures Drained(s', k) == Replayed(s', k)
    {
      QuietBefore(s, s', w, k);
    }
  }

  /** A value without a JSON form is left unlogged; that does no harm exactly if its key has a busy writer or ends
      up right anyway: the last entry queued for it or, without one, the cached value is what the log says. */
  lemma UnencodableHarmlessIff(s: Leader, w: nat, capacity: nat)
    requires Inv(s) && Enabled(s, Action.Append(w)) && Recorded(s.writers[w].op).None?
    ensures var s' := Step(s, Action.Append(w), capacity);
            var k := s.writers[w].op.key;
            var last := LastWrite(s.queue, k);
            Inv(s') <==>
              (!Quiet(s', k) || LastEffect(s.log, k) == if last.Some? then Effect(last.value) else At(s.cache, k))
  {
    hide Replay;
    var s' := Step(s, Action.Append(w), capacity);
    var k := s.writers[w].op.key;
    ReplayIsLastWrite(s.cache, s.queue, k);
    ReplayIsLastWrite(map[], s.log, k);
    forall j | Quiet(s', j) && j != k
      ensures Drained(s', j) == Replayed(s', j)
    {
      QuietBefore(s, s', w, j);
    }
  }

  /** Without interruption between the local write and the failed encoding: exactly if an entry for the key is
      queued. */
  lemma UnencodableAtOnceHarmlessIff(s: Leader, w: nat, k: string, id: nat, ttl: int, capacity: nat)
    requires Inv(s) && Enabled(s, Local(w, WriteSet(k, Other(id, None), ttl))) && Quiet(s, k)
    ensures var s1 := Step(s, Local(w, WriteSet(k, Other(id, None), ttl)), capacity);
            Inv(Step(s1, Action.Append(w), capacity)) <==> LastWrite(s.queue, k).Some?
  {
    hide Replay;
    var s1 := Step(s, Local(w, WriteSet(k, Other(id, None), ttl)), capacity);
    LocalKeepsInv(s, w, WriteSet(k, Other(id, None), ttl), capacity);
    UnencodableHarmlessIff(s1, w, capacity);
    var s2 := Step(s1, Action.Append(w), capacity);
    assert s2.writers == s.writers;
    assert Quiet(s2, k);
    assert Drained(s, k) == Replayed(s, k);
    ReplayIsLastWrite(s.cache, s.queue, k);
    ReplayIsLastWrite(map[], s.log, k);
  }

  // Witnesses

  /** A write of the single writer, run without interruption. */
  function Written(s: Leader, op: Write, capacity: nat): (s': Leader)
    requires s.writers == [Idle]
    ensures s'.writers == [Idle]
  {
    var s1 := Step(s, Local(0, op), capacity);
    var s2 := Step(s1, Action.Append(0), capacity);
    if s2.writers[0].Logged? then Step(s2, Send(0), capacity) else s2
  }

  lemma WrittenKeepsInv(s: Leader, op: Write, capacity: nat)
    requires Inv(s) && s.writers == [Idle] && Recorded(op).Some? && |s.queue| < capacity
    ensures Inv(Written(s, op, capacity))
  {
    hide Inv;
    var s1 := Step(s, Local(0, op), capacity);
    StepKeepsInv(s, Local(0, op), capacity);
    StepKeepsInv(s1, Action.Append(0), capacity);
    StepKeepsInv(Step(s1, Action.Append(0), capacity), Send(0), capacity);
  }

  /** The single writer after n writes of one value to one key, with the worker at rest. */
  function Filled(n: nat, a: Bytes, capacity: nat): (s: Leader)
    ensures s.writers == [Idle]
  {
    if n == 0 then Start(1) else Written(Filled(n - 1, a, capacity), WriteSet("k", Text(a), 0), capacity)
  }

  lemma {:induction false} FilledQueue(n: nat, a: Bytes, capacity: nat)
    requires n <= capacity
    ensures var s := Filled(n, a, capacity);
            && Inv(s) && |s.queue| == n
            && (n > 0 ==> LastEffect(s.queue, "k") == Some(Cell(Text(a), 0)) && LastWrite(s.queue, "k").Some?)
  {
    if n > 0 {
      FilledQueue(n - 1, a, capacity);
      var s := Filled(n - 1, a, capacity);
      hide Inv;
      WrittenKeepsInv(s, WriteSet("k", Text(a), 0), capacity);
    }
  }

  /** Whatever the capacity, filling the queue with writes of one value and then writing another one breaks the
      invariant: the queue is behind the log for good. */
  lemma OverflowHappens(a: Bytes, b: Bytes, capacity: nat)
    requires a != b && capacity > 0
    ensures var s := Filled(capacity, a, capacity);
            var t := Written(s, WriteSet("k", Text(b), 0), capacity);
            Inv(s) && !Inv(t) && Replay(t.cache, t.queue) != Replay(map[], t.log)
  {
    FilledQueue(capacity, a, capacity);
    var s, op := Filled(capacity, a, capacity), WriteSet("k", Text(b), 0);
    hide Inv, Filled, Drained, Replayed, LastWrite, Replay;
    var s1 := Step(s, Local(0, op), capacity);
    StepKeepsInv(s, Local(0, op), capacity);
    StepKeepsInv(s1, Action.Append(0), capacity);
    OverflowHarmlessIff(Step(s1, Action.Append(0), capacity), 0, capacity);
    IdleAgrees(Written(s, op, capacity));
  }

  /** A first Set of a value without a JSON form breaks the invariant. */
  lemma UnencodableHappens(id: nat, capacity: nat)
    ensures var t := Written(Start(1), WriteSet("k", Other(id, None), 0), capacity);
            Inv(Start(1)) && !Inv(t) && t.cache != Replay(map[], t.log) && t.queue == []
  {
    UnencodableAtOnceHarmlessIff(Start(1), 0, "k", id, 0, capacity);
    hide Inv;
    IdleAgrees(Written(Start(1), WriteSet("k", Other(id, None), 0), capacity));
  }

  /** Two writers of one key whose sends overtake each other leave the cache at odds with the log. */
  lemma OvertakingWritersDiverge(a: Bytes, b: Bytes, s: Leader, capacity: nat)
    requires a != b && capacity >= 2
    requires var e, f := WriteSet("k", Text(a), 0), WriteSet("k", Text(b), 0);
             s == Step(Step(Step(Step(Start(2), Local(0, e), capacity), Local(1, f), capacity),
                       Action.Append(0), capacity), Action.Append(1), capacity)
    ensures var u := Step(Step(s, Send(1), capacity), Send(0), capacity);
            var t := Step(Step(u, Process, capacity), Process, capacity);
            && AllIdle(t) && t.queue == []
            && At(t.cache, "k") == Some(Cell(Text(a), 0)) && At(Replay(map[], t.log), "k") == Some(Cell(Text(b), 0))
  {
    var e, f := Entry(1, 1, "Set", "k", a, "string", 0), Entry(2, 1, "Set", "k", b, "string", 0);
    assert s.log == [e, f] && s.writers == [Logged(e), Logged(f)];
    var t := Step(Step(s, Send(1), capacity), Send(0), capacity);
    assert t.queue == [f, e] && t.writers == [Idle, Idle];
    assert [f, e][1..] == [e] && [e, f][1..] == [f];
    ReplaySnoc(map[], [e], f);
    assert [e, f] == [e] + [f];
  }
}

/** The syncer of cache/replication/syncer.go and the write path of the leader/follower cluster. */
module Syncers {
  import opened Wrappers
  import opened Replays
  import opened ReplicationLogs
  import opened Catchups
  import opened LeaderWrites

  class MemorySyncer {
    var localCache: Cache
    const log: MemoryReplicationLog
    const capacity: nat := 1000
    const maxLogEntries: int
    var logCh: seq<Entry>
    var running: bool
    ghost var sent: seq<Entry>    // every entry that ever entered the channel

    ghost predicate Valid()
      reads this, log
    {
      log.Valid()
    }

    ghost function Content(): (r: Replica)
      reads this, log
    {
      Replica(log.entries, localCache)
    }

    /** The syncer of a leader with a single writer, between two of its writes. */
    ghost function State(): (s: Leader)
      reads this, log
    {
      Leader(localCache, log.entries, logCh, [Idle], sent)
    }

    constructor (maxLogEntries: int)
      ensures Valid() && Content() == Replica([], map[]) && logCh == [] && !running && State() == Start(1)
      ensures this.maxLogEntries == maxLogEntries && fresh(log)
    {
      log := new MemoryReplicationLog();
      localCache, logCh, running, this.maxLogEntries, sent := map[], [], false, maxLogEntries, [];
    }

    method ApplyEntryToLocal(entry: Entry) returns (ok: bool)
      modifies this`localCache
      ensures ok == Known(entry) && localCache == Apply(old(localCache), entry)
      ensures entry.command == "Set" ==>
                && ok && entry.key in localCache && localCache[entry.key].ttl == entry.ttl
                && localCache[entry.key].value ==
                   if entry.valueType == "string" then Text(entry.value) else Blob(entry.value)
      ensures entry.command == "Del" ==> ok && entry.key !in localCache
      ensures forall k :: k != entry.key ==> At(localCache, k) == At(old(localCache), k)
      ensures !ok ==> entry.command !in {"Set", "Del"} && localCache == old(localCache)
    {
      if entry.command == "Set" {
        var value := Blob(entry.value);
        if entry.valueType == "string" {
          value := Text(entry.value);
        }
        localCache := localCache[entry.key := Cell(value, entry.ttl)];
        return true;
      } else if entry.command == "Del" {
        localCache := localCache - {entry.key};
        return true;
      }
      return false;
    }

    /** Applies and appends entry by entry, up to the first that fails. */
    method ApplySync(entries: seq<Entry>) returns (ok: bool)
      requires Valid()
      modifies this`localCache, log
      ensures Valid() && Content() == Absorb(old(Content()), entries)
      ensures ok == AllKnown(entries)
    {
      hide Absorb;
      AbsorbUnfolds(Content(), entries, 0);
      assert entries[0..] == entries;
      var i := 0;
      while i < |entries|
        invariant 0 <= i <= |entries| && Valid() && forall j :: 0 <= j < i ==> Known(entries[j])
        invariant Absorb(Content(), entries[i..]) == Absorb(old(Content()), entries)
      {
        AbsorbUnfolds(Content(), entries, i);
        var applied := ApplyEntryToLocal(entries[i]);
        if !applied {
          return false;
        }
        var _ := log.Append(Some(entries[i]));
        i := i + 1;
      }
      AbsorbUnfolds(Content(), entries, i);
      return true;
    }

    method HandleSyncRequest(lastLogIndex: nat, fullSync: bool) returns (r: Option<Response>)
      requires Valid()
      ensures r == Answer(log.entries, lastLogIndex, fullSync, maxLogEntries)
      ensures r.None? <==> log.entries == [] && !fullSync && lastLogIndex > 0
      ensures r.Some? ==> r.value.entries == Page(log.entries, if fullSync then 0 else lastLogIndex, maxLogEntries)
      ensures r.Some? && r.value.entries != [] ==> r.value.nextIndex == r.value.entries[|r.value.entries| - 1].index
      ensures r.Some? && r.value.entries == [] ==> r.value.nextIndex == |log.entries|
    {
      var startIndex := if fullSync then 0 else lastLogIndex;
      var found := log.GetFrom(startIndex + 1, maxLogEntries);
      if found.None? && startIndex > 0 {
        return None;
      }
      var entries := if found.Some? then found.value else [];
      if |entries| > 0 {
        return Some(Response(entries, entries[|entries| - 1].index));
      }
      var last := log.GetLastIndex();
      return Some(Response([], last));
    }

    /** One request of a sync attempt; the result is the index the next request carries, None an error. */
    method RequestPage(target: MemorySyncer, lastLogIndex: nat) returns (next: Option<nat>)
      requires Valid() && target.Valid() && target.log != log
      modifies this`localCache, log
      ensures Valid()
      ensures var s := PageStep(Session(old(Content()), lastLogIndex), old(target.log.entries), target.maxLogEntries);
              && Content() == s.replica
              && (next.Some? ==> next.value == s.next)
      ensures AllKnown(old(target.log.entries)) ==> (next.None? <==> old(target.log.entries) == [] && lastLogIndex > 0)
    {
      var r := target.HandleSyncRequest(lastLogIndex, false);
      if r.None? {
        return None;
      }
      var ok := ApplySync(r.value.entries);
      return if ok then Some(r.value.nextIndex) else None;
    }

    /** Takes one entry from the channel, if there is one, and applies it: a step of the worker. */
    method ProcessOne()
      modifies this`localCache, this`logCh
      ensures State() == if old(logCh) == [] then old(State()) else LeaderWrites.Step(old(State()), Process, capacity)
      ensures Replay(localCache, logCh) == Replay(old(localCache), old(logCh))
      ensures old(Inv(State())) ==> Inv(State())
      ensures Inv(State()) && logCh == [] ==> localCache == Replay(map[], log.entries)
    {
      ghost var s := State();
      if logCh != [] {
        if Inv(s) {
          StepKeepsInv(s, Process, capacity);
        }
        var entry := logCh[0];
        logCh := logCh[1..];
        var _ := ApplyEntryToLocal(entry);
      }
      IdleAgrees(State());
    }

    /** Appends an entry to the log and, when running, sends it without blocking. */
    method Record(entry: Entry) returns (ok: bool)
      requires Valid()
      modifies this`logCh, this`sent, log
      ensures Valid() && log.entries == old(log.entries) + [Stamped(old(log.entries), entry)]
      ensures ok == (!running || |old(logCh)| < capacity)
      ensures logCh == if running && ok then old(logCh) + [Stamped(old(log.entries), entry)] else old(logCh)
      ensures sent == if running && ok then old(sent) + [Stamped(old(log.entries), entry)] else old(sent)
    {
      var e := Stamped(log.entries, entry);
      var _ := log.Append(Some(entry));
      if running {
        if |logCh| < capacity {
          logCh := logCh + [e];
          sent := sent + [e];
        } else {
          return false;
        }
      }
      return true;
    }
  }

  class LeaderFollowerCluster {
    const syncer: MemorySyncer
    var isLeader: bool

    constructor (syncer: MemorySyncer, isLeader: bool)
      ensures this.syncer == syncer && this.isLeader == isLeader
    {
      this.syncer, this.isLeader := syncer, isLeader;
    }

    /** Local write first; then, on the leader, log and queue. A successful write keeps the invariant. */
    method Set(key: string, val: Value, ttl: int) returns (ok: bool)
      requires syncer.Valid()
      modifies syncer, syncer.log
      ensures syncer.Valid() && syncer.running == old(syncer.running)
      ensures syncer.State() ==
              ClusterWrite(old(syncer.State()), WriteSet(key, val, ttl), isLeader, syncer.running, syncer.capacity)
      ensures ok <==> (isLeader ==> Encode(val).Some? && (syncer.running ==> |old(syncer.logCh)| < syncer.capacity))
      ensures isLeader && syncer.running && ok && old(Inv(syncer.State())) ==>
                Inv(syncer.State()) && Replay(syncer.localCache, syncer.logCh) == Replay(map[], syncer.log.entries)
      ensures syncer.localCache == old(syncer.localCache)[key := Cell(val, ttl)]
      ensures isLeader && ok ==>
                match val
                case Text(t) => At(Replay(map[], syncer.log.entries), key) == Some(Cell(Text(t), ttl))
                case Blob(b) => At(Replay(map[], syncer.log.entries), key) == Some(Cell(Text(b), ttl))
                case Other(_, json) =>
                  json.Some? && At(Replay(map[], syncer.log.entries), key) == Some(Cell(Text(json.value), ttl))
      ensures isLeader && ok ==>
                && |syncer.log.entries| == |old(syncer.log.entries)| + 1
                && syncer.log.entries[|old(syncer.log.entries)|].index == |syncer.log.entries|
                && syncer.log.entries[|old(syncer.log.entries)|].term == 1
    {
      hide Inv, Replay;
      ghost var s := syncer.State();
      syncer.localCache := syncer.localCache[key := Cell(val, ttl)];
      if !isLeader {
        return true;
      }
      var bytes := Encode(val);
      if bytes.None? {
        return false;
      }
      ok := syncer.Record(Entry(0, 1, "Set", key, bytes.value, "string", ttl));
      ReplayMore(map[], s.log, Stamped(s.log, Entry(0, 1, "Set", key, bytes.value, "string", ttl)), key);
      if syncer.running && ok && Inv(s) {
        WrittenKeepsInv(s, WriteSet(key, val, ttl), syncer.capacity);
        IdleAgrees(syncer.State());
      }
    }

    method Del(key: string) returns (ok: bool)
      requires syncer.Valid()
      modifies syncer, syncer.log
      ensures syncer.Valid() && syncer.running == old(syncer.running)
      ensures syncer.State() ==
              ClusterWrite(old(syncer.State()), WriteDel(key), isLeader, syncer.running, syncer.capacity)
      ensures ok <==> (isLeader && syncer.running ==> |old(syncer.logCh)| < syncer.capacity)
      ensures isLeader && syncer.running && ok && old(Inv(syncer.State())) ==>
                Inv(syncer.State()) && Replay(syncer.localCache, syncer.logCh) == Replay(map[], syncer.log.entries)
      ensures syncer.localCache == old(syncer.localCache) - {key}
      ensures isLeader ==> At(Replay(map[], syncer.log.entries), key) == None
      ensures isLeader ==>
                && |syncer.log.entries| == |old(syncer.log.entries)| + 1
                && syncer.log.entries[|old(syncer.log.entries)|].index == |syncer.log.entries|
                && syncer.log.entries[|old(syncer.log.entries)|].term == 1
    {
      hide Inv, Replay;
      ghost var s := syncer.State();
      syncer.localCache := syncer.localCache - {key};
      if !isLeader {
        return true;
      }
      ok := syncer.Record(Entry(0, 1, "Del", key, [], "", 0));
      ReplayMore(map[], s.log, Stamped(s.log, Entry(0, 1, "Del", key, [], "", 0)), key);
      if syncer.running && ok && Inv(s) {
        WrittenKeepsInv(s, WriteDel(key), syncer.capacity);
        IdleAgrees(syncer.State());
      }
    }
  }

  /** What a write of the cluster does: on a leader with a running syncer the whole write of the single writer, on a
      leader without one everything but the sending, on a follower the local write alone. */
  function ClusterWrite(s: Leader, op: Write, isLeader: bool, running: bool, capacity: nat): (s': Leader)
    requires s.writers == [Idle]
  {
    if isLeader && running then Written(s, op, capacity)
    else
      var local := s.(cache := Replays.Write(s.cache, op.key, LocalEffect(op)));
      if isLeader && Recorded(op).Some? then local.(log := s.log + [Stamped(s.log, Recorded(op).value)]) else local
  }

  /** What a write means to a follower: text for text, bytes and JSON alike, with the writer's lifetime. */
  function Replicated(op: Write): (cell: Option<Cell>)
  {
    match op
    case WriteSet(_, Text(t), ttl) => Some(Cell(Text(t), ttl))
    case WriteSet(_, Blob(b), ttl) => Some(Cell(Text(b), ttl))
    case WriteSet(_, Other(_, json), ttl) => if json.Some? then Some(Cell(Text(json.value), ttl)) else None
    case WriteDel(_) => None
  }

  /** A write of the leader reaches every follower that copies enough pages afterwards, with its value and lifetime. */
  lemma WriteReachesFollower(s: Leader, op: Write, capacity: nat, f: Session, n: nat, max: int)
    requires s.writers == [Idle] && Numbered(s.log) && AllKnown(s.log) && Recorded(op).Some?
    requires var log := Written(s, op, capacity).log;
             Following(f, log) && ((max <= 0 && n > 0) || n * max >= |log| - f.next)
    ensures var log := Written(s, op, capacity).log;
            At(PageRun(f, seq(n, i => log), max).replica.cache, op.key) == Replicated(op)
  {
    hide Replay, PageRun, Following;
    var e := Stamped(s.log, Recorded(op).value);
    var log := Written(s, op, capacity).log;
    assert log == s.log + [e];
    RecordedTouches(op);
    PagesConverge(f, log, n, max);
    ReplayMore(map[], s.log, e, op.key);
  }

  /** With the syncer stopped a leader's write is not queued. It keeps the invariant exactly if the key ends up right
      anyway: by the last entry queued for it or, without one, by the local write itself. */
  lemma StoppedWriteKeepsInvIff(s: Leader, op: Write, capacity: nat)
    requires Inv(s) && s.writers == [Idle] && Recorded(op).Some?
    ensures var last := LastWrite(s.queue, op.key);
            Inv(ClusterWrite(s, op, true, false, capacity)) <==>
              Effect(Recorded(op).value) == if last.Some? then Effect(last.value) else LocalEffect(op)
  {
    hide Replay;
    var s' := ClusterWrite(s, op, true, false, capacity);
    var e := Stamped(s.log, Recorded(op).value);
    RecordedTouches(op);
    ReplayIsLastWrite(s'.cache, s.queue, op.key);
    assert forall k :: Quiet(s, k) && Quiet(s', k);
    assert Drained(s', op.key) == if LastWrite(s.queue, op.key).Some? then Effect(LastWrite(s.queue, op.key).value)
                                  else LocalEffect(op);
    forall k
      ensures Replayed(s', k) == if k == op.key then Effect(e) else Replayed(s, k)
      ensures k != op.key ==> Drained(s', k) == Drained(s, k)
    {
      ReplayMore(map[], s.log, e, k);
      if k != op.key {
        ReplayElsewhere(s.cache, s'.cache, s.queue, k);
      }
    }
  }

  /** A byte value written with an empty queue breaks it: the cache holds bytes, the log text. */
  lemma StoppedByteWriteBreaksInv(b: Bytes, ttl: int, capacity: nat)
    ensures Inv(Start(1)) && !Inv(ClusterWrite(Start(1), WriteSet("k", Blob(b), ttl), true, false, capacity))
  {
    StoppedWriteKeepsInvIff(Start(1), WriteSet("k", Blob(b), ttl), capacity);
  }

  datatype Status = Normal | OutOfSync

  class LeaderNode {
    const log: MemoryReplicationLog
    const maxLogEntries: int
    var followerStatus: map<string, Status>

    constructor (log: MemoryReplicationLog, maxLogEntries: int)
      ensures this.log == log && this.maxLogEntries == maxLogEntries && followerStatus == map[]
    {
      this.log, this.maxLogEntries, followerStatus := log, maxLogEntries, map[];
    }

    /** One follower's turn in a replication round: the first entries of the log, whatever was pushed before.
        False is an error for this follower, which may have applied them all the same. */
    method Replicate(id: string, follower: MemorySyncer, fault: Fault) returns (ok: bool)
      requires log.Valid() && follower.Valid() && follower.log != log
      modifies this, follower, follower.log
      ensures follower.Valid() && log.entries == old(log.entries)
      ensures ok <==> log.entries != [] && fault.Fine? && AllKnown(Page(log.entries, 0, maxLogEntries))
      ensures follower.Content() ==
              if fault.RequestLost? then old(follower.Content())
              else Push(old(follower.Content()), log.entries, maxLogEntries)
      ensures followerStatus ==
              if log.entries == [] then old(followerStatus)
              else old(followerStatus)[id := if ok then Normal else OutOfSync]
    {
      ok := false;
      var entries := log.GetFrom(1, maxLogEntries);
      if entries.Some? {
        if !fault.RequestLost? {
          var applied := follower.ApplySync(entries.value);
          ok := applied && fault.Fine?;
        }
        followerStatus := followerStatus[id := if ok then Normal else OutOfSync];
      }
    }
  }
}
