/**
 Fetching a set of messages over IMAP in batches.  With UIDs the fetcher first searches, in chunks for
 servers that cannot handle big answers, and then fetches what the searches have found; the consumer
 slows it down by asking for each further batch.
 */
module BatchFetcher {
  import opened Common

  const MAX_UIDS_TO_SEARCH := 2000

  /** Message numbers; `Open` has no defined end. */
  datatype Interval = Closed(first: nat, last: nat) | Open(first: nat)

  predicate Proper(i: Interval) {
    i.Closed? ==> i.first <= i.last
  }

  ghost predicate AllProper(s: seq<Interval>) {
    forall k :: 0 <= k < |s| ==> Proper(s[k])
  }

  ghost predicate AllClosed(s: seq<Interval>) {
    forall k :: 0 <= k < |s| ==> s[k].Closed?
  }

  function Size(i: Interval): nat
    requires i.Closed? && Proper(i)
  {
    i.last - i.first + 1
  }

  function Range(first: nat, n: nat): (r: seq<nat>)
    ensures |r| == n && forall k :: 0 <= k < n ==> r[k] == first + k
  {
    seq(n, k requires 0 <= k < n => first + k)
  }

  lemma RangeSplit(first: nat, a: nat, b: nat)
    ensures Range(first, a + b) == Range(first, a) + Range(first + a, b)
  {
  }

  /** The numbers of the closed intervals of a set, in order. */
  ghost function Elements(s: seq<Interval>): seq<nat>
    requires AllProper(s) && AllClosed(s)
  {
    if s == [] then [] else Elements(s[..|s| - 1]) + Range(s[|s| - 1].first, Size(s[|s| - 1]))
  }

  lemma ElementsAdd(s: seq<Interval>, i: Interval)
    requires AllProper(s) && AllClosed(s) && i.Closed? && Proper(i)
    ensures AllProper(s + [i]) && AllClosed(s + [i])
    ensures Elements(s + [i]) == Elements(s) + Range(i.first, Size(i))
  {
    assert (s + [i])[..|s|] == s;
  }

  lemma AllConcat(s: seq<Interval>, t: seq<Interval>)
    requires AllProper(s) && AllClosed(s) && AllProper(t) && AllClosed(t)
    ensures AllProper(s + t) && AllClosed(s + t)
  {
  }

  lemma AllFront(s: seq<Interval>, n: nat)
    requires n <= |s| && AllProper(s)
    ensures AllProper(s[..n]) && (AllClosed(s) ==> AllClosed(s[..n]))
  {
  }

  lemma ConcatFront<T>(s: seq<T>, t: seq<T>)
    requires t != []
    ensures (s + t)[..|s + t| - 1] == s + t[..|t| - 1] && (s + t)[|s + t| - 1] == t[|t| - 1]
  {
  }

  lemma {:induction false} ElementsConcat(s: seq<Interval>, t: seq<Interval>)
    requires AllProper(s) && AllClosed(s) && AllProper(t) && AllClosed(t)
    ensures AllProper(s + t) && AllClosed(s + t)
    ensures Elements(s + t) == Elements(s) + Elements(t)
  {
    AllConcat(s, t);
    if t == [] {
      assert s + t == s;
    } else {
      var front := t[..|t| - 1];
      AllFront(t, |t| - 1);
      hide AllProper, AllClosed, Range, Size;
      ElementsConcat(s, front);
      ConcatFront(s, t);
    }
  }

  lemma {:induction false} SomeElement(s: seq<Interval>)
    requires AllProper(s) && AllClosed(s)
    ensures Elements(s) == [] <==> s == []
  {
  }

  function FirstOpen(s: seq<Interval>): (k: nat)
    ensures k <= |s| && (k < |s| ==> s[k].Open?)
    ensures AllClosed(s[..k])
  {
    if s == [] || s[0].Open? then 0 else
      var k := 1 + FirstOpen(s[1..]);
      assert forall j :: 0 < j < k ==> s[j] == s[1..][..k - 1][j - 1];
      k
  }

  function Min(a: nat, b: nat): nat {
    if a <= b then a else b
  }

  ghost predicate Covers(s: seq<Interval>, x: nat) {
    exists k :: 0 <= k < |s| && s[k].first <= x && (s[k].Closed? ==> x <= s[k].last)
  }

  lemma ClosedBefore(s: seq<Interval>, n: nat)
    requires n <= |s| && AllClosed(s[..n])
    ensures forall j :: 0 <= j < n ==> s[j].Closed?
  {
    assert forall j :: 0 <= j < n ==> s[j] == s[..n][j];
  }

  lemma OpenTaken(current: seq<Interval>, i: nat, toFetch: seq<Interval>, newSet: seq<Interval>, batchSize: nat)
    requires i < |current| && current[i].Open? && AllProper(current[..i]) && AllClosed(current[..i])
    requires AllProper(toFetch) && AllClosed(toFetch) && AllProper(newSet) && AllClosed(newSet)
    requires Elements(toFetch) + Elements(newSet) == Elements(current[..i])
    requires |Elements(toFetch)| <= batchSize && (newSet != [] ==> |Elements(toFetch)| == batchSize)
    ensures FirstOpen(current) == i && !AllClosed(current) && (toFetch + [current[i]])[..|toFetch|] == toFetch
    ensures Elements(toFetch) == Elements(current[..i])[..Min(batchSize, |Elements(current[..i])|)]
  {
    var k := FirstOpen(current);
    ClosedBefore(current, i);
    ClosedBefore(current, k);
    assert newSet == [] ==> Elements(newSet) == [];
  }

  /** One closed interval: it is fetched, kept for later, or split where the batch is full. */
  method TakeInterval(fetch: seq<Interval>, later: seq<Interval>, count: nat, interval: Interval, batchSize: nat)
    returns (toFetch: seq<Interval>, newSet: seq<Interval>, counter: nat)
    requires AllProper(fetch) && AllClosed(fetch) && AllProper(later) && AllClosed(later)
    requires interval.Closed? && Proper(interval)
    requires count == |Elements(fetch)| <= batchSize && (later != [] ==> count == batchSize)
    ensures AllProper(toFetch) && AllClosed(toFetch) && AllProper(newSet) && AllClosed(newSet)
    ensures Elements(toFetch) + Elements(newSet)
         == Elements(fetch) + Elements(later) + Range(interval.first, Size(interval))
    ensures counter == |Elements(toFetch)| <= batchSize && (newSet != [] ==> counter == batchSize)
  {
    toFetch, newSet, counter := fetch, later, count;
    var wanted := batchSize - counter;
    if counter < batchSize {
      if Size(interval) <= wanted {
        ElementsAdd(toFetch, interval);
        counter := counter + Size(interval);
        toFetch := toFetch + [interval];
      } else {
        RangeSplit(interval.first, wanted, Size(interval) - wanted);
        counter := counter + wanted;
        ElementsAdd(toFetch, Closed(interval.first, interval.first + wanted - 1));
        toFetch := toFetch + [Closed(interval.first, interval.first + wanted - 1)];
        ElementsAdd(newSet, Closed(interval.first + wanted, interval.last));
        newSet := newSet + [Closed(interval.first + wanted, interval.last)];
      }
    } else {
      ElementsAdd(newSet, interval);
      newSet := newSet + [interval];
    }
  }

  /**
   The first `batchSize` numbers of `current` and the others; or everything up to an open interval, with
   nothing left.
   */
  ghost predicate Chunk(current: seq<Interval>, batchSize: nat, toFetch: seq<Interval>, newSet: seq<Interval>)
    requires AllProper(current)
  {
    && AllProper(toFetch) && AllProper(newSet) && AllClosed(newSet)
    && (AllClosed(current) ==>
          && AllClosed(toFetch) && Elements(toFetch) + Elements(newSet) == Elements(current)
          && |Elements(toFetch)| == Min(batchSize, |Elements(current)|))
    && (!AllClosed(current) ==>
          var k, n := FirstOpen(current), |toFetch| - 1;
          && newSet == [] && n >= 0 && toFetch[n] == current[k] && AllClosed(toFetch[..n])
          && Elements(toFetch[..n]) == Elements(current[..k])[..Min(batchSize, |Elements(current[..k])|)])
  }

  /** Ascending intervals without overlap. */
  ghost predicate Ordered(s: seq<Interval>) {
    forall j, k :: 0 <= j < k < |s| ==> s[j].Closed? && s[j].last < s[k].first
  }

  lemma {:induction false} CoversElements(s: seq<Interval>, x: nat)
    requires AllProper(s) && AllClosed(s)
    ensures x in Elements(s) <==> Covers(s, x)
  {
    if s != [] {
      var n := |s| - 1;
      var front, r := s[..n], Range(s[n].first, Size(s[n]));
      CoversElements(front, x);
      assert s[n].first <= x <= s[n].last ==> r[x - s[n].first] == x;
      if Covers(front, x) {
        var k :| 0 <= k < n && front[k].first <= x && (front[k].Closed? ==> x <= front[k].last);
        assert s[k] == front[k];
      }
      if Covers(s, x) && !(s[n].first <= x <= s[n].last) {
        var k :| 0 <= k < |s| && s[k].first <= x && (s[k].Closed? ==> x <= s[k].last);
        assert front[k] == s[k];
      }
    }
  }

  lemma {:induction false} ElementsAscend(s: seq<Interval>)
    requires AllProper(s) && AllClosed(s) && Ordered(s)
    ensures forall i, j :: 0 <= i < j < |Elements(s)| ==> Elements(s)[i] < Elements(s)[j]
  {
    if s != [] {
      var n := |s| - 1;
      var front := s[..n];
      ElementsAscend(front);
      forall i | 0 <= i < |Elements(front)|
        ensures Elements(front)[i] < s[n].first
      {
        CoversElements(front, Elements(front)[i]);
      }
    }
  }

  /** An open interval at the end of an ordered set: nothing is dropped exactly if what is before it fits one batch. */
  lemma OpenIsExact(current: seq<Interval>, batchSize: nat, toFetch: seq<Interval>, newSet: seq<Interval>)
    requires AllProper(current) && Ordered(current) && !AllClosed(current)
    requires Chunk(current, batchSize, toFetch, newSet)
    ensures (forall x :: Covers(current, x) ==> Covers(toFetch, x) || Covers(newSet, x))
            <==> |Elements(current[..FirstOpen(current)])| <= batchSize
  {
    var k, n := FirstOpen(current), |toFetch| - 1;
    OpenIsLast(current);
    FrontAndLast(toFetch);
    AllFront(current, k);
    AllFront(toFetch, n);
    hide AllClosed, AllProper, Ordered, Covers, Elements, Chunk;
    BeforeOpen(current[..k], toFetch[..n], current[k], batchSize);
    CoversNothing();
  }

  lemma FrontAndLast<T>(s: seq<T>)
    requires s != []
    ensures s == s[..|s| - 1] + [s[|s| - 1]]
  {
  }

  lemma OpenIsLast(s: seq<Interval>)
    requires Ordered(s) && !AllClosed(s)
    ensures var k := FirstOpen(s); k < |s| && s[k].Open? && s == s[..k] + [s[k]]
  {
    assert s[..|s|] == s;
    var end := s[|s| - 1];
    assert end == s[|s| - 1] && FirstOpen(s) == |s| - 1;
    FrontAndLast(s);
  }

  lemma CoversNothing()
    ensures forall x :: !Covers([], x)
  {
  }

  lemma BeforeOpen(before: seq<Interval>, part: seq<Interval>, open: Interval, batchSize: nat)
    requires AllProper(before) && AllClosed(before) && AllProper(part) && AllClosed(part) && open.Open?
    requires Ordered(before + [open])
    requires Elements(part) == Elements(before)[..Min(batchSize, |Elements(before)|)]
    ensures (forall x :: Covers(before + [open], x) ==> Covers(part + [open], x)) <==> |Elements(before)| <= batchSize
  {
    var all := Elements(before);
    forall x
      ensures Covers(before + [open], x) <==> x in all || open.first <= x
      ensures Covers(part + [open], x) <==> x in Elements(part) || open.first <= x
    {
      CoversLast(before, open, x);
      CoversLast(part, open, x);
      CoversElements(before, x);
      CoversElements(part, x);
    }
    if |all| <= batchSize {
      assert all[..|all|] == all;
    } else {
      var x := all[batchSize];
      assert forall j :: 0 <= j < |before| ==> before[j] == (before + [open])[j];
      assert (before + [open])[|before|] == open;
      ElementsAscend(before);
      CoversElements(before, x);
      hide Elements, Covers;
      assert x in all && x !in all[..batchSize];
      BelowOpen(before, open, x);
      assert Covers(before + [open], x) && !Covers(part + [open], x);
    }
  }

  lemma BelowOpen(before: seq<Interval>, open: Interval, x: nat)
    requires AllClosed(before) && Ordered(before + [open]) && Covers(before, x)
    ensures x < open.first
  {
    var k :| 0 <= k < |before| && before[k].first <= x && (before[k].Closed? ==> x <= before[k].last);
    assert (before + [open])[k] == before[k] && (before + [open])[|before|] == open;
  }

  lemma CoversLast(s: seq<Interval>, i: Interval, x: nat)
    ensures Covers(s + [i], x) <==> Covers(s, x) || (i.first <= x && (i.Closed? ==> x <= i.last))
  {
    var t := s + [i];
    assert t[|s|] == i;
    if Covers(s, x) {
      var k :| 0 <= k < |s| && s[k].first <= x && (s[k].Closed? ==> x <= s[k].last);
      assert t[k] == s[k];
    }
  }

  /** From 1:10 and 11:* in batches of five the numbers 6 to 10 are never fetched. */
  lemma RemainderDropped(toFetch: seq<Interval>, newSet: seq<Interval>)
    requires AllProper([Closed(1, 10), Open(11)]) && Chunk([Closed(1, 10), Open(11)], 5, toFetch, newSet)
    ensures exists x :: Covers([Closed(1, 10), Open(11)], x) && !Covers(toFetch, x) && !Covers(newSet, x)
  {
    var current := [Closed(1, 10), Open(11)];
    assert current[1].Open?;
    OpenIsExact(current, 5, toFetch, newSet);
    var k := FirstOpen(current);
    assert k != 0;
    assert current[..1] == [Closed(1, 10)];
    ElementsAdd([], Closed(1, 10));
    assert [] + [Closed(1, 10)] == [Closed(1, 10)];
  }

  /**
   Splits the first `batchSize` numbers off a set.  An open interval is fetched as a whole with what has been
   taken before it, and nothing stays for later.
   */
  method TakeChunk(current: seq<Interval>, batchSize: nat) returns (toFetch: seq<Interval>, newSet: seq<Interval>)
    requires batchSize > 0 && AllProper(current)
    ensures Chunk(current, batchSize, toFetch, newSet)
  {
    toFetch, newSet := [], [];
    var counter, i := 0, 0;
    while i < |current|
      invariant 0 <= i <= |current| && AllClosed(current[..i]) && AllProper(current[..i])
      invariant AllProper(toFetch) && AllClosed(toFetch) && AllProper(newSet) && AllClosed(newSet)
      invariant Elements(toFetch) + Elements(newSet) == Elements(current[..i])
      invariant counter == |Elements(toFetch)| <= batchSize
      invariant newSet != [] ==> counter == batchSize
    {
      hide Elements;
      var interval := current[i];
      if interval.Open? {
        OpenTaken(current, i, toFetch, newSet, batchSize);
        toFetch := toFetch + [interval];
        newSet := [];
        return;
      }
      assert current[..i + 1] == current[..i] + [interval];
      ElementsAdd(current[..i], interval);
      toFetch, newSet, counter := TakeInterval(toFetch, newSet, counter, interval, batchSize);
      i := i + 1;
    }
    assert current[..i] == current;
  }

  /** The messages that the server has between two UIDs, ascending. */
  ghost function UidsIn(server: set<nat>, first: nat, end: nat): seq<nat>
    requires first <= end
  {
    if first == end then [] else UidsIn(server, first, end - 1) + if end - 1 in server then [end - 1] else []
  }

  lemma {:induction false} UidsSplit(server: set<nat>, first: nat, middle: nat, end: nat)
    requires first <= middle <= end
    ensures UidsIn(server, first, middle) + UidsIn(server, middle, end) == UidsIn(server, first, end)
    decreases end
  {
    if middle < end {
      UidsSplit(server, first, middle, end - 1);
    }
  }

  lemma {:induction false} UidsExactly(server: set<nat>, first: nat, end: nat, uid: nat)
    requires first <= end
    ensures uid in UidsIn(server, first, end) <==> uid in server && first <= uid < end
    ensures var u := UidsIn(server, first, end); forall i, j :: 0 <= i < j < |u| ==> u[i] < u[j]
    decreases end
  {
    if first < end {
      UidsExactly(server, first, end - 1, uid);
      var u := UidsIn(server, first, end - 1);
      forall i | 0 <= i < |u|
        ensures u[i] < end - 1
      {
        UidsExactly(server, first, end - 1, u[i]);
      }
    }
  }

  /** All batches have the full size, but for the last one when nothing is left. */
  ghost predicate Full(batches: seq<seq<nat>>, batchSize: nat, more: bool) {
    forall i :: 0 <= i < |batches| ==>
      0 < |batches[i]| <= batchSize && (more || i < |batches| - 1 ==> |batches[i]| == batchSize)
  }

  lemma FullAdd(batches: seq<seq<nat>>, batch: seq<nat>, batchSize: nat, more: bool)
    requires Full(batches, batchSize, true) && 0 < |batch| <= batchSize && (more ==> |batch| == batchSize)
    ensures Full(batches + [batch], batchSize, more)
  {
  }

  lemma Requested(before: seq<nat>, elements: seq<nat>, rest: seq<nat>, all: seq<nat>, wanted: seq<nat>)
    requires elements + rest == all && before + all == wanted
    ensures before + elements + rest == wanted && before + elements == wanted[..|before + elements|]
  {
  }

  /** What is fetched next and what is left of a set without open intervals. */
  method NextBatch(current: seq<Interval>, batchSize: nat, changedSince: nat)
    returns (newSet: seq<Interval>, ghost elements: seq<nat>, ghost rest: seq<nat>)
    requires AllProper(current) && AllClosed(current) && current != [] && batchSize > 0
    ensures AllProper(newSet) && AllClosed(newSet) && rest == Elements(newSet) && |elements| > 0
    ensures elements + rest == Elements(current) && (changedSince != 0 ==> newSet == [])
    ensures changedSince == 0 ==> |elements| <= batchSize && (newSet != [] ==> |elements| == batchSize)
  {
    SomeElement(current);
    var toFetch := current;
    newSet := [];
    if changedSince == 0 {
      toFetch, newSet := TakeChunk(current, batchSize);
    }
    elements, rest := Elements(toFetch), Elements(newSet);
    SomeElement(newSet);
  }

  /** What the fetches have brought since the last one that has made it a batch: the count starts again there. */
  function CountOf(brought: seq<nat>, batchSize: nat): nat {
    if brought == [] then 0 else
      var count := CountOf(brought[..|brought| - 1], batchSize) + brought[|brought| - 1];
      if count < batchSize then count else 0
  }

  /** The last fetch has not made it a batch. */
  predicate TooLittle(brought: seq<nat>, batchSize: nat)
    requires brought != []
  {
    CountOf(brought[..|brought| - 1], batchSize) + brought[|brought| - 1] < batchSize
  }

  function Sum(s: seq<nat>): nat {
    if s == [] then 0 else Sum(s[..|s| - 1]) + s[|s| - 1]
  }

  /**
   The count is that of the fetches behind some `n`-th one, with all of which it has never come to a batch; and with the
   `n`-th it has, unless there is none before them.
   */
  lemma {:induction false} CountExactly(brought: seq<nat>, batchSize: nat) returns (n: nat)
    requires batchSize > 0
    ensures n <= |brought| && CountOf(brought, batchSize) == Sum(brought[n..]) < batchSize
    ensures CountOf(brought[..n], batchSize) == 0 && (n > 0 ==> !TooLittle(brought[..n], batchSize))
  {
    if brought == [] {
      n := 0;
    } else {
      var front, last := brought[..|brought| - 1], brought[|brought| - 1];
      n := CountExactly(front, batchSize);
      if CountOf(front, batchSize) + last < batchSize {
        assert front[..n] == brought[..n];
        assert brought[n..][..|brought| - 1 - n] == front[n..] && brought[n..][|brought| - 1 - n] == last;
      } else {
        n := |brought|;
        assert brought[..n] == brought;
      }
    }
  }

  /** UIDs from `first` up to, but not including, `end`. */
  datatype Uids = Uids(first: nat, end: nat)

  class BatchFetcher {
    var m_currentSet: seq<Interval>
    const m_batchSize: nat
    const changedSince: nat
    var m_fetchInProgress: bool
    var m_continuationRequested: bool
    var m_fetchedItemsInCurrentBatch: nat
    var m_searchUidInterval: Uids
    var m_searchInChunks: bool
    /** The search that is running. */
    var search: Uids
    var finished: bool
    var error: bool

    /** What is to be fetched, and what has been asked for so far: all the numbers, and those of each fetch. */
    ghost var wanted: seq<nat>
    ghost var requested: seq<nat>
    ghost var batches: seq<seq<nat>>
    /** How many messages each fetch has brought, the one that runs so far. */
    ghost var brought: seq<nat>
    ghost var server: set<nat>

    ghost predicate Searching()
      reads this
    {
      search.first < search.end || m_searchUidInterval.first < m_searchUidInterval.end
    }

    /** What has been found and what the searches still to come will find is what is wanted. */
    ghost predicate SearchCovers()
      reads this
      requires AllProper(m_currentSet) && AllClosed(m_currentSet)
      requires search.first <= search.end && m_searchUidInterval.first <= m_searchUidInterval.end
    {
      Elements(m_currentSet) + UidsIn(server, search.first, search.end)
         + UidsIn(server, m_searchUidInterval.first, m_searchUidInterval.end) == wanted
    }

    /** A request for more that could not be met at once is remembered until it can. */
    ghost predicate Valid()
      reads this
    {
      Safe() && (m_continuationRequested ==> m_fetchInProgress || finished)
    }

    ghost predicate Safe()
      reads this
    {
      && m_batchSize > 0 && Flatten(batches) == requested
      && AllProper(m_currentSet) && AllClosed(m_currentSet)
      && search.first <= search.end && m_searchUidInterval.first <= m_searchUidInterval.end
      && (error ==> finished)
      && (Searching() ==> !m_fetchInProgress && requested == [] && batches == [] && SearchCovers() && !finished)
      && (!Searching() ==> requested + Elements(m_currentSet) == wanted)
      && (changedSince == 0 ==> Full(batches, m_batchSize, m_currentSet != []))
      && (changedSince != 0 ==> batches == [] || (|batches| == 1 && m_currentSet == []))
      && (finished && !error ==> m_currentSet == [] && !m_fetchInProgress)
      && |brought| == |batches| && (m_fetchInProgress ==> brought != []) && (!finished ==> Counted())
    }

    /** The counter is what the finished fetches have left, with what the running one has brought. */
    ghost predicate Counted()
      requires m_fetchInProgress ==> brought != []
      reads this`m_fetchInProgress, this`m_fetchedItemsInCurrentBatch, this`brought
    {
      m_fetchedItemsInCurrentBatch ==
      if m_fetchInProgress then CountOf(brought[..|brought| - 1], m_batchSize) + brought[|brought| - 1]
      else CountOf(brought, m_batchSize)
    }

    constructor (current: seq<Interval>, batchSize: nat, since: nat)
      requires batchSize > 0 && AllProper(current) && AllClosed(current)
      ensures Valid() && !Searching() && !finished && !m_fetchInProgress && requested == [] && batches == []
      ensures wanted == Elements(current) && m_currentSet == current && m_batchSize == batchSize
      ensures changedSince == since && !error && !m_searchInChunks && brought == []
    {
      m_currentSet, m_batchSize, changedSince := current, batchSize, since;
      m_fetchInProgress, m_continuationRequested, m_fetchedItemsInCurrentBatch := false, false, 0;
      m_searchUidInterval, search, m_searchInChunks := Uids(0, 0), Uids(0, 0), false;
      finished, error := false, false;
      wanted, requested, batches, brought, server := Elements(current), [], [], [], {};
    }

    /** The set is looked up on the server instead; `uids` are those that the server has. */
    method SetSearchUids(interval: Interval, exchange: bool, ghost uids: set<nat>)
      requires Valid() && !Searching() && requested == [] && batches == [] && !finished && !m_fetchInProgress
      requires interval.Closed? && Proper(interval)
      modifies this
      ensures Valid() && Searching() && search.first == search.end && requested == [] && batches == [] && !finished
      ensures error == old(error)
      ensures server == uids && wanted == UidsIn(uids, interval.first, interval.last + 1)
      ensures m_searchUidInterval == Uids(interval.first, interval.last + 1) && m_searchInChunks == exchange
    {
      assert UidsIn(uids, search.first, search.end) == [];
      hide Full, Flatten, CountOf, UidsIn;
      m_searchUidInterval := Uids(interval.first, interval.last + 1);
      m_currentSet := [];
      m_searchInChunks := exchange;
      server := uids;
      wanted := UidsIn(uids, interval.first, interval.last + 1);
      assert Elements([]) + UidsIn(uids, search.first, search.end) == [];
      assert [] + wanted == wanted;
    }

    /** The searches go on with the first UIDs of what was left, or the first fetch starts. */
    ghost predicate StartsAfter(left: Uids)
      reads this
    {
      if left.first < left.end then
        && search.first == left.first && search.end == m_searchUidInterval.first && m_searchUidInterval.end == left.end
        && search.end == (if m_searchInChunks then Min(left.first + 2000, left.end) else left.end)
      else !Searching() && (m_fetchInProgress || finished)
    }

    /** The next search, or, when all of the interval has been searched, the first fetch. */
    method Start()
      requires Valid() && !finished && !m_fetchInProgress && search.first == search.end
      modifies this
      ensures Valid() && wanted == old(wanted) && server == old(server) && m_searchInChunks == old(m_searchInChunks)
      ensures error == old(error)
      ensures StartsAfter(old(m_searchUidInterval))
    {
      if m_searchUidInterval.first < m_searchUidInterval.end {
        var first := m_searchUidInterval.first;
        var last := if m_searchInChunks then Min(first + MAX_UIDS_TO_SEARCH - 1, m_searchUidInterval.end - 1)
                    else m_searchUidInterval.end - 1;
        UidsSplit(server, first, last + 1, m_searchUidInterval.end);
        m_searchUidInterval := Uids(last + 1, m_searchUidInterval.end);
        search := Uids(first, last + 1);
      } else {
        FetchNextBatch();
      }
    }

    /** A search has answered; a faithful answer names the messages that the server has. */
    method OnUidSearchDone(failed: bool, results: seq<Interval>)
      requires Valid() && search.first < search.end && !finished
      requires !failed ==>
                 AllProper(results) && AllClosed(results)
                     && Elements(results) == UidsIn(server, search.first, search.end)
      modifies this
      ensures wanted == old(wanted) && server == old(server) && m_searchInChunks == old(m_searchInChunks)
      ensures if failed
              then && finished && error && requested == old(requested) && batches == old(batches)
                   && brought == old(brought) && m_currentSet == old(m_currentSet)
                   && m_fetchInProgress == old(m_fetchInProgress)
                   && m_searchUidInterval == old(m_searchUidInterval)
              else Valid() && error == old(error) && StartsAfter(old(m_searchUidInterval))
    {
      search := Uids(search.end, search.end);
      if failed {
        error := true;
        finished := true;
        return;
      }
      ElementsConcat(m_currentSet, results);
      m_currentSet := m_currentSet + results;
      Start();
    }

    /** Asked for by the consumer, or after a batch that has brought too little. */
    method FetchNextBatch()
      requires Safe() && !finished && !Searching()
      modifies this`m_continuationRequested, this`finished, this`m_currentSet, this`m_fetchInProgress
      modifies this`requested, this`batches, this`brought
      ensures Valid()
      ensures if old(m_fetchInProgress) then
                && m_continuationRequested && m_fetchInProgress && !finished
                && m_currentSet == old(m_currentSet) && requested == old(requested) && batches == old(batches)
                && brought == old(brought)
              else if old(m_currentSet) == [] then
                && finished && !m_fetchInProgress && !m_continuationRequested && m_currentSet == []
                && requested == old(requested) && batches == old(batches) && brought == old(brought)
              else
                && !finished && m_fetchInProgress && !m_continuationRequested
                && |batches| == |old(batches)| + 1 && batches[..|batches| - 1] == old(batches)
                && requested == wanted[..|requested|] == old(requested) + batches[|batches| - 1]
                && batches[|batches| - 1] != [] && brought == old(brought) + [0]
    {
      if m_fetchInProgress {
        m_continuationRequested := true;
        return;
      }
      m_continuationRequested := false;
      if m_currentSet == [] {
        finished := true;
        return;
      }
      StartFetch();
    }

    /** Starts the fetch of the next batch, or of everything when only changes are wanted. */
    method StartFetch()
      requires Valid() && !finished && !Searching() && !m_fetchInProgress && m_currentSet != []
      modifies this`m_currentSet, this`m_fetchInProgress, this`requested, this`batches, this`brought
      ensures Valid() && m_fetchInProgress && brought == old(brought) + [0]
      ensures |batches| == |old(batches)| + 1 && batches[..|batches| - 1] == old(batches)
      ensures requested == wanted[..|requested|] == old(requested) + batches[|batches| - 1]
      ensures batches[|batches| - 1] != []
    {
      hide Elements, AllProper, AllClosed, Chunk, Flatten, Full;
      var newSet;
      ghost var elements, rest;
      newSet, elements, rest := NextBatch(m_currentSet, m_batchSize, changedSince);
      Requested(requested, elements, rest, Elements(m_currentSet), wanted);
      requested := requested + elements;
      FlattenAppend(batches, elements);
      if changedSince == 0 {
        FullAdd(batches, elements, m_batchSize, newSet != []);
      }
      batches, brought := batches + [elements], brought + [0];
      assert brought[..|brought| - 1] == old(brought);
      m_currentSet := newSet;
      m_fetchInProgress := true;
    }

    method OnMessagesAvailable(added: nat)
      requires Valid() && m_fetchInProgress && !finished
      modifies this`m_fetchedItemsInCurrentBatch, this`brought
      ensures Valid() && brought == old(brought)[|brought| - 1 := old(brought)[|brought| - 1] + added]
    {
      brought := brought[|brought| - 1 := brought[|brought| - 1] + added];
      assert brought[..|brought| - 1] == old(brought)[..|brought| - 1];
      m_fetchedItemsInCurrentBatch := m_fetchedItemsInCurrentBatch + added;
    }

    /**
     The fetch is over: the next one follows if what has come since the count was started makes no batch yet, or if the
     consumer has asked for more. Otherwise the count starts again.
     */
    method OnHeadersFetchDone(failed: bool)
      requires Valid() && m_fetchInProgress && !finished && !Searching()
      modifies this`m_continuationRequested, this`finished, this`error, this`m_fetchedItemsInCurrentBatch
      modifies this`m_currentSet, this`m_fetchInProgress, this`requested, this`batches, this`brought
      ensures failed ==>
                && finished && error && !m_fetchInProgress && requested == old(requested) && batches == old(batches)
                && brought == old(brought) && m_currentSet == old(m_currentSet)
      ensures !failed ==> Valid()
      ensures !failed && old(m_currentSet) == [] ==> finished && !error && requested == wanted
      ensures !failed && old(m_currentSet) != [] ==>
                && !finished
                && (m_fetchInProgress <==> TooLittle(old(brought), m_batchSize) || old(m_continuationRequested))
                && (if m_fetchInProgress then |requested| > |old(requested)| else requested == old(requested))
                && brought == old(brought) + if m_fetchInProgress then [0] else []
    {
      m_fetchInProgress := false;
      if failed {
        error := true;
        finished := true;
        return;
      }
      if m_currentSet == [] {
        finished := true;
        return;
      }
      if m_fetchedItemsInCurrentBatch < m_batchSize {
        FetchNextBatch();
      } else {
        m_fetchedItemsInCurrentBatch := 0;
        if m_continuationRequested {
          FetchNextBatch();
        }
      }
    }
  }

  /** The server's answer to a search. */
  method Search(server: set<nat>, uids: Uids) returns (results: seq<Interval>)
    requires uids.first <= uids.end
    ensures AllProper(results) && AllClosed(results) && Elements(results) == UidsIn(server, uids.first, uids.end)
  {
    results := [];
    var uid := uids.first;
    while uid < uids.end
      invariant uids.first <= uid <= uids.end && AllProper(results) && AllClosed(results)
      invariant Elements(results) == UidsIn(server, uids.first, uid)
    {
      if uid in server {
        ElementsAdd(results, Closed(uid, uid));
        assert Range(uid, 1) == [uid];
        results := results + [Closed(uid, uid)];
      }
      uid := uid + 1;
    }
  }

  /** All searches are answered, one after the other. */
  method RunSearches(fetcher: BatchFetcher, server: set<nat>)
    requires fetcher.Valid() && fetcher.Searching() && fetcher.search.first < fetcher.search.end
    requires !fetcher.error && fetcher.server == server
    modifies fetcher
    ensures fetcher.Valid() && !fetcher.error && !fetcher.Searching() && fetcher.wanted == old(fetcher.wanted)
    ensures fetcher.m_fetchInProgress || fetcher.finished
  {
    hide UidsIn, Elements, BatchFetcher.SearchCovers, Full;
    while fetcher.search.first < fetcher.search.end
      invariant fetcher.Valid() && !fetcher.error && fetcher.server == server && fetcher.wanted == old(fetcher.wanted)
      invariant fetcher.Searching() || fetcher.m_fetchInProgress || fetcher.finished
      invariant fetcher.Searching() ==> fetcher.search.first < fetcher.search.end
      decreases fetcher.Searching(), fetcher.m_searchUidInterval.end - fetcher.m_searchUidInterval.first
    {
      var results := Search(server, fetcher.search);
      fetcher.OnUidSearchDone(false, results);
    }
  }

  /** Each fetch brings any number of messages, and the consumer asks for more during or after it. */
  method RunFetches(fetcher: BatchFetcher)
    requires fetcher.Valid() && !fetcher.error && !fetcher.Searching()
            && (fetcher.m_fetchInProgress || fetcher.finished)
    modifies fetcher
    ensures fetcher.Valid() && !fetcher.error && fetcher.requested == fetcher.wanted == old(fetcher.wanted)
    ensures fetcher.m_currentSet == [] && Flatten(fetcher.batches) == fetcher.requested
  {
    while !fetcher.finished
      invariant fetcher.Valid() && !fetcher.error && !fetcher.Searching()
              && (fetcher.m_fetchInProgress || fetcher.finished)
      invariant fetcher.wanted == old(fetcher.wanted)
      decreases !fetcher.finished, |fetcher.wanted| - |fetcher.requested|
    {
      NotBeyond(fetcher);
      hide Full, Elements, BatchFetcher.Safe;
      var added, asked: bool := *, *;
      fetcher.OnMessagesAvailable(added);
      if asked {
        fetcher.FetchNextBatch();
      }
      fetcher.OnHeadersFetchDone(false);
      if !fetcher.finished && !fetcher.m_fetchInProgress {
        fetcher.FetchNextBatch();
      }
      NotBeyond(fetcher);
    }
    NotBeyond(fetcher);
  }

  lemma NotBeyond(fetcher: BatchFetcher)
    requires fetcher.Valid() && !fetcher.Searching()
    ensures |fetcher.requested| <= |fetcher.wanted|
    ensures fetcher.finished && !fetcher.error ==> fetcher.requested == fetcher.wanted && fetcher.m_currentSet == []
  {
  }

  /**
   A whole run without errors, with any number of messages in each batch and any requests of the consumer: every
   message of the interval is asked for exactly once, in ascending order and in batches of the given size.
   */
  method FetchMessages(interval: Interval, batchSize: nat, changedSince: nat, exchange: bool, server: set<nat>)
    returns (ghost batches: seq<seq<nat>>)
    requires interval.Closed? && Proper(interval) && batchSize > 0
    ensures Flatten(batches) == UidsIn(server, interval.first, interval.last + 1)
    ensures if changedSince == 0 then Full(batches, batchSize, false) else |batches| <= 1
  {
    var fetcher := new BatchFetcher([], batchSize, changedSince);
    fetcher.SetSearchUids(interval, exchange, server);
    fetcher.Start();
    RunSearches(fetcher, server);
    RunFetches(fetcher);
    batches := fetcher.batches;
  }

  /** The same for a given set of numbers, without any search: exactly its numbers are asked for, in their order. */
  method FetchSet(current: seq<Interval>, batchSize: nat, changedSince: nat) returns (ghost batches: seq<seq<nat>>)
    requires AllProper(current) && AllClosed(current) && batchSize > 0
    ensures Flatten(batches) == Elements(current)
    ensures if changedSince == 0 then Full(batches, batchSize, false) else |batches| <= 1
  {
    var fetcher := new BatchFetcher(current, batchSize, changedSince);
    fetcher.Start();
    RunFetches(fetcher);
    batches := fetcher.batches;
  }
}
