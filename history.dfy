/** The transaction history read: a user's own records, most recent first,
    served ten to a page. It is a function of the log, so it never changes
    any state. */
module History {
  import opened Wrappers
  import opened Models

  /** Records per history page. */
  const PageSize: nat := 10

  /** The records of `log` that belong to `user`, in log order. */
  function RecordsOf(log: seq<Record>, user: UserId): (r: seq<Record>)
    ensures |r| <= |log|
    ensures forall i :: 0 <= i < |r| ==> r[i].user == user && r[i] in log
  {
    if log == [] then []
    else if log[0].user == user then [log[0]] + RecordsOf(log[1..], user)
    else RecordsOf(log[1..], user)
  }

  /** A user's records are exactly the log's records of that user, each as
      often as it occurs in the log. */
  lemma {:induction false} RecordsOfCounts(log: seq<Record>, user: UserId)
    ensures forall rec :: multiset(RecordsOf(log, user))[rec] == if rec.user == user then multiset(log)[rec] else 0
  {
    if log != [] {
      RecordsOfCounts(log[1..], user);
      assert log == [log[0]] + log[1..];
    }
  }

  /** Appending a record extends its owner's records by exactly that record
      and leaves everybody else's as they were. */
  lemma {:induction false} RecordsOfAppend(log: seq<Record>, rec: Record, user: UserId)
    ensures RecordsOf(log + [rec], user) == RecordsOf(log, user) + (if rec.user == user then [rec] else [])
  {
    if log == [] {
      assert [rec][1..] == [];
    } else {
      assert (log + [rec])[0] == log[0];
      assert (log + [rec])[1..] == log[1..] + [rec];
      RecordsOfAppend(log[1..], rec, user);
    }
  }

  /** Timestamps never decrease along `s`: the order records are appended in
      when the clock does not go backwards. */
  ghost predicate Chronological(s: seq<Record>) {
    forall i, j :: 0 <= i < j < |s| ==> s[i].timestamp <= s[j].timestamp
  }

  /** Timestamps never increase along `s`. */
  ghost predicate NewestFirstOrder(s: seq<Record>) {
    forall i, j :: 0 <= i < j < |s| ==> s[i].timestamp >= s[j].timestamp
  }

  /** Places `x`, which was inserted before every record of `t`, into the
      newest-first sequence `t`: it goes after every record at least as
      recent, so ties keep the later insertion first. */
  function InsertOlder(x: Record, t: seq<Record>): (r: seq<Record>)
    ensures |r| == |t| + 1
    ensures multiset(r) == multiset(t) + multiset{x}
    ensures forall y :: y in r <==> y == x || y in t
  {
    if t == [] || x.timestamp > t[0].timestamp then [x] + t
    else
      assert t == [t[0]] + t[1..];
      [t[0]] + InsertOlder(x, t[1..])
  }

  /** Inserting an older record keeps a newest-first sequence in order. */
  lemma {:induction false} InsertOlderKeepsOrder(x: Record, t: seq<Record>)
    requires NewestFirstOrder(t)
    ensures NewestFirstOrder(InsertOlder(x, t))
  {
    if !(t == [] || x.timestamp > t[0].timestamp) {
      var rest := InsertOlder(x, t[1..]);
      InsertOlderKeepsOrder(x, t[1..]);
      forall j | 0 <= j < |rest|
        ensures t[0].timestamp >= rest[j].timestamp
      {
        assert rest[j] in rest;
      }
    }
  }

  /** A sequence of records ordered by timestamp, most recent first. */
  function NewestFirst(s: seq<Record>): (r: seq<Record>)
    ensures |r| == |s|
    ensures multiset(r) == multiset(s)
    ensures NewestFirstOrder(r)
  {
    if s == [] then []
    else
      assert s == [s[0]] + s[1..];
      InsertOlderKeepsOrder(s[0], NewestFirst(s[1..]));
      InsertOlder(s[0], NewestFirst(s[1..]))
  }

  /** The elements of `s` in the opposite order. */
  function Reverse<T>(s: seq<T>): (r: seq<T>)
    ensures |r| == |s|
    ensures forall i :: 0 <= i < |s| ==> r[i] == s[|s| - 1 - i]
  {
    if s == [] then [] else Reverse(s[1..]) + [s[0]]
  }

  /** A record no more recent than anything in `t` goes to its end. */
  lemma {:induction false} InsertOldestAtEnd(x: Record, t: seq<Record>)
    requires forall j :: 0 <= j < |t| ==> x.timestamp <= t[j].timestamp
    ensures InsertOlder(x, t) == t + [x]
  {
    if t != [] {
      InsertOldestAtEnd(x, t[1..]);
      assert [t[0]] + (t[1..] + [x]) == t + [x];
    }
  }

  /** When records were appended in chronological order, newest first is
      exactly the reverse of the log. */
  lemma {:induction false} NewestFirstOfChronological(s: seq<Record>)
    requires Chronological(s)
    ensures NewestFirst(s) == Reverse(s)
  {
    if s != [] {
      var tail := s[1..];
      ChronologicalTail(s);
      NewestFirstOfChronological(tail);
      var rest := Reverse(tail);
      OldestFirst(s);
      InsertOldestAtEnd(s[0], rest);
      assert NewestFirst(s) == InsertOlder(s[0], NewestFirst(tail));
    }
  }

  /** Dropping the first record keeps a sequence chronological. */
  lemma ChronologicalTail(s: seq<Record>)
    requires Chronological(s) && s != []
    ensures Chronological(s[1..])
  {
  }

  /** The first record of a chronological sequence is no more recent than
      any record of its reversed tail. */
  lemma OldestFirst(s: seq<Record>)
    requires Chronological(s) && s != []
    ensures forall j :: 0 <= j < |s| - 1 ==> s[0].timestamp <= Reverse(s[1..])[j].timestamp
  {
  }

  /** Keeping one user's records preserves chronological order. */
  lemma {:induction false} RecordsOfChronological(log: seq<Record>, user: UserId)
    requires Chronological(log)
    ensures Chronological(RecordsOf(log, user))
  {
    if log != [] {
      RecordsOfChronological(log[1..], user);
      var rest := RecordsOf(log[1..], user);
      forall j | 0 <= j < |rest|
        ensures log[0].timestamp <= rest[j].timestamp
      {
        var k :| 0 <= k < |log[1..]| && log[1..][k] == rest[j];
        assert log[k + 1] == rest[j];
      }
    }
  }

  /** Under a clock that never goes backwards, a user's history is the
      reverse of the user's records in the log. */
  lemma HistoryOfChronologicalLog(log: seq<Record>, user: UserId)
    requires Chronological(log)
    ensures NewestFirst(RecordsOf(log, user)) == Reverse(RecordsOf(log, user))
  {
    RecordsOfChronological(log, user);
    NewestFirstOfChronological(RecordsOf(log, user));
  }

  /** The smaller of two integers. */
  function Min(a: int, b: int): int {
    if a <= b then a else b
  }

  /** Number of pages for `count` records: the least positive `n` with room
      for all of them, so an empty history still has one (empty) page. */
  function NumPages(count: nat): (n: nat)
    ensures 1 <= n
    ensures count == 0 ==> n == 1
    ensures count <= n * PageSize
    ensures count == 0 || (n - 1) * PageSize < count
  {
    if count == 0 then 1 else (count + PageSize - 1) / PageSize
  }

  /** Page `n` (counted from 1) of `s`: the entries from position
      `(n - 1) * PageSize` on, at most `PageSize` of them. */
  function PageSlice<T>(s: seq<T>, n: int): (r: seq<T>)
    requires 1 <= n <= NumPages(|s|)
    ensures |r| <= PageSize
    ensures |s| == 0 || 0 < |r|
    ensures (n - 1) * PageSize + |r| == if n == NumPages(|s|) then |s| else n * PageSize
    ensures forall i :: 0 <= i < |r| ==> r[i] == s[(n - 1) * PageSize + i]
  {
    s[(n - 1) * PageSize .. Min(n * PageSize, |s|)]
  }

  /** Pages 1 to `k` of `s`, one after the other. */
  function FirstPages<T>(s: seq<T>, k: nat): seq<T>
    requires k <= NumPages(|s|)
  {
    if k == 0 then [] else FirstPages(s, k - 1) + PageSlice(s, k)
  }

  /** The first `k` pages are the first `k * PageSize` entries. */
  lemma {:induction false} FirstPagesArePrefix<T>(s: seq<T>, k: nat)
    requires k <= NumPages(|s|)
    ensures FirstPages(s, k) == s[..Min(k * PageSize, |s|)]
  {
    if k > 0 {
      FirstPagesArePrefix(s, k - 1);
      assert s[..Min(k * PageSize, |s|)] == s[..(k - 1) * PageSize] + PageSlice(s, k);
    }
  }

  /** The pages partition the history: read in turn they give every entry
      once, in order. */
  lemma AllPagesAreWholeHistory<T>(s: seq<T>)
    ensures FirstPages(s, NumPages(|s|)) == s
  {
    FirstPagesArePrefix(s, NumPages(|s|));
  }

  /** Twelve records make two pages: ten on the first, two on the second. */
  lemma PagingScenario(s: seq<Record>)
    requires |s| == 12
    ensures NumPages(|s|) == 2
    ensures |PageSlice(s, 1)| == 10 && |PageSlice(s, 2)| == 2
  {
  }

  /** A page of the history: the caller's record count, the page count, the
      page number asked for, and that page's records. */
  datatype HistoryPage = HistoryPage(total: nat, pages: nat, current: int, transactions: seq<Record>)

  datatype HistoryError = InvalidPage

  /** The history read for `user`. An absent page parameter means page 1;
      a page outside `1..pages` is refused. */
  function ListHistory(log: seq<Record>, user: UserId, page: Option<int>): (r: Result<HistoryPage, HistoryError>)
    ensures r.Success? <==> 1 <= page.GetOr(1) <= NumPages(|RecordsOf(log, user)|)
    ensures r.Failure? ==> r.error == InvalidPage
    ensures r.Success? ==> r.value.total == |RecordsOf(log, user)| && r.value.pages == NumPages(r.value.total)
    ensures r.Success? ==> r.value.current == page.GetOr(1)
    ensures r.Success? ==> |r.value.transactions| <= PageSize
    ensures r.Success? ==> forall i :: 0 <= i < |r.value.transactions| ==>
              r.value.transactions[i].user == user && r.value.transactions[i] in log
    ensures r.Success? ==> NewestFirstOrder(r.value.transactions)
    ensures r.Success? ==> r.value.transactions == PageSlice(NewestFirst(RecordsOf(log, user)), page.GetOr(1))
  {
    var mine := NewestFirst(RecordsOf(log, user));
    var n := page.GetOr(1);
    if 1 <= n <= NumPages(|mine|) then
      var entries := PageSlice(mine, n);
      assert forall i :: 0 <= i < |entries| ==> entries[i] in multiset(RecordsOf(log, user));
      Success(HistoryPage(|mine|, NumPages(|mine|), n, entries))
    else
      Failure(InvalidPage)
  }

  /** With two pages of records, page 5 is refused. */
  lemma PageBeyondLastScenario(log: seq<Record>, user: UserId)
    requires |RecordsOf(log, user)| == 12
    ensures ListHistory(log, user, Some(5)) == Failure(InvalidPage)
    ensures ListHistory(log, user, None).Success?
  {
  }
}
