/**
 Submission records as the judge's record-list endpoint returns them, and the
 step both scripts apply to them: sort ascending by submission time with
 Python's stable `list.sort`, then keep the first `min(count, n)`.
 */
module Submissions {
  import opened Common

  /**
   One entry of `currentData.records.result`. The optional fields are the ones
   the scripts read with `.get(..., default)`; `pid` and `title` live in the
   nested `problem` object, which may itself be missing.
   */
  datatype Record = Record(
    submitTime: int,
    status: int,
    pid: Option<string>,
    title: Option<string>,
    time: Option<int>,
    memory: Option<int>)

  /** What the HTTP round trip yields once `response.json()` has run. */
  datatype Response =
    | Failed                                     // network error, timeout, HTTP error status, body not JSON
    | Payload(code: int, result: Option<seq<Record>>)  // `code` (0 when absent) and the records list, if present

  // ---------------------------------------------------------------------------
  // Order by submission time

  predicate SortedByTime(s: seq<Record>)
  {
    forall i, j :: 0 <= i < j < |s| ==> s[i].submitTime <= s[j].submitTime
  }

  /** The records of `s` submitted at time `t`, in their order in `s`. */
  function WithTime(s: seq<Record>, t: int): seq<Record>
  {
    if s == [] then []
    else WithTime(s[..|s| - 1], t) + (if s[|s| - 1].submitTime == t then [s[|s| - 1]] else [])
  }

  /**
   Inserts `x` into `s` after every element whose time is not later than
   `x`'s, scanning from the back: the step of an insertion sort that keeps
   equal keys in their arrival order.
   */
  function Insert(s: seq<Record>, x: Record): seq<Record>
  {
    if s == [] || s[|s| - 1].submitTime <= x.submitTime then s + [x]
    else Insert(s[..|s| - 1], x) + [s[|s| - 1]]
  }

  /** `sorted(s, key=lambda r: r['submitTime'])`, written as an insertion sort. */
  function StableSort(s: seq<Record>): seq<Record>
  {
    if s == [] then [] else Insert(StableSort(s[..|s| - 1]), s[|s| - 1])
  }

  lemma {:induction false} WithTimeAppend(s: seq<Record>, x: Record, t: int)
    ensures WithTime(s + [x], t) == WithTime(s, t) + (if x.submitTime == t then [x] else [])
  {
    assert (s + [x])[..|s + [x]| - 1] == s;
  }

  lemma {:induction false} InsertPermutes(s: seq<Record>, x: Record)
    ensures multiset(Insert(s, x)) == multiset(s) + multiset{x}
  {
    if s == [] || s[|s| - 1].submitTime <= x.submitTime {
    } else {
      var init := s[..|s| - 1];
      InsertPermutes(init, x);
      assert s == init + [s[|s| - 1]];
    }
  }

  lemma {:induction false} InsertSorted(s: seq<Record>, x: Record)
    requires SortedByTime(s)
    ensures SortedByTime(Insert(s, x))
  {
    if s == [] || s[|s| - 1].submitTime <= x.submitTime {
    } else {
      var init, last := s[..|s| - 1], s[|s| - 1];
      InsertSorted(init, x);
      InsertPermutes(init, x);
      var u := Insert(init, x);
      forall k | 0 <= k < |u| ensures u[k].submitTime <= last.submitTime {
        assert u[k] in multiset(u);
        assert u[k] in multiset(init) || u[k] == x;
        if u[k] in multiset(init) {
          var m :| 0 <= m < |init| && init[m] == u[k];
          assert s[m] == u[k];
        }
      }
    }
  }

  lemma {:induction false} InsertWithTime(s: seq<Record>, x: Record, t: int)
    ensures WithTime(Insert(s, x), t) == WithTime(s, t) + (if x.submitTime == t then [x] else [])
  {
    if s == [] || s[|s| - 1].submitTime <= x.submitTime {
      WithTimeAppend(s, x, t);
    } else {
      var init, last := s[..|s| - 1], s[|s| - 1];
      InsertWithTime(init, x, t);
      WithTimeAppend(Insert(init, x), last, t);
      WithTimeAppend(init, last, t);
      assert s == init + [last];
    }
  }

  /** Python's sort returns the records in ascending time order. */
  lemma {:induction false} StableSortSorted(s: seq<Record>)
    ensures SortedByTime(StableSort(s))
  {
    if s != [] {
      StableSortSorted(s[..|s| - 1]);
      InsertSorted(StableSort(s[..|s| - 1]), s[|s| - 1]);
    }
  }

  /** Sorting neither loses nor duplicates a record. */
  lemma {:induction false} StableSortPermutes(s: seq<Record>)
    ensures multiset(StableSort(s)) == multiset(s)
    ensures |StableSort(s)| == |s|
  {
    if s != [] {
      var init := s[..|s| - 1];
      StableSortPermutes(init);
      InsertPermutes(StableSort(init), s[|s| - 1]);
      assert s == init + [s[|s| - 1]];
    }
    assert |multiset(StableSort(s))| == |StableSort(s)|;
  }

  /** Records submitted at the same time keep their input order. */
  lemma {:induction false} StableSortStable(s: seq<Record>, t: int)
    ensures WithTime(StableSort(s), t) == WithTime(s, t)
  {
    if s != [] {
      var init := s[..|s| - 1];
      StableSortStable(init, t);
      InsertWithTime(StableSort(init), s[|s| - 1], t);
    }
  }

  lemma {:induction false} WithTimeMembers(s: seq<Record>, t: int)
    ensures forall x :: x in WithTime(s, t) <==> x in s && x.submitTime == t
  {
    if s != [] {
      WithTimeMembers(s[..|s| - 1], t);
      assert s == s[..|s| - 1] + [s[|s| - 1]];
    }
  }

  /**
   Sortedness and stability pin the result down: every sorted sequence with
   the same records at each time, in the same order, is `StableSort(s)`. So
   the model agrees with whatever stable algorithm Python's `sort` uses.
   */
  lemma {:induction false} SortedSameGroupsEqual(r: seq<Record>, u: seq<Record>)
    requires SortedByTime(r) && SortedByTime(u)
    requires forall t :: WithTime(r, t) == WithTime(u, t)
    ensures r == u
    decreases |r|
  {
    if r == [] {
      if u != [] {
        WithTimeMembers(u, u[|u| - 1].submitTime);
      }
    } else {
      var x := r[|r| - 1];
      var m := x.submitTime;
      WithTimeMembers(r, m);
      WithTimeMembers(u, m);
      assert x in WithTime(r, m);
      assert u != [];
      var y := u[|u| - 1];
      WithTimeMembers(r, y.submitTime);
      WithTimeMembers(u, y.submitTime);
      assert y in WithTime(u, y.submitTime);
      assert y in r;
      assert x in u;
      assert y.submitTime <= m;
      assert m <= y.submitTime;
      var r', u' := r[..|r| - 1], u[..|u| - 1];
      assert r == r' + [x] && u == u' + [y];
      WithTimeAppend(r', x, m);
      WithTimeAppend(u', y, m);
      assert WithTime(r, m)[|WithTime(r, m)| - 1] == x;
      assert x == y;
      forall t ensures WithTime(r', t) == WithTime(u', t) {
        WithTimeAppend(r', x, t);
        WithTimeAppend(u', y, t);
        assert WithTime(r, t) == WithTime(u, t);
        var w := if x.submitTime == t then [x] else [];
        assert WithTime(r', t) == WithTime(r, t)[..|WithTime(r, t)| - |w|];
      }
      SortedSameGroupsEqual(r', u');
    }
  }

  lemma StableSortUnique(s: seq<Record>, r: seq<Record>)
    requires SortedByTime(r)
    requires forall t :: WithTime(r, t) == WithTime(s, t)
    ensures r == StableSort(s)
  {
    StableSortSorted(s);
    forall t ensures WithTime(r, t) == WithTime(StableSort(s), t) {
      StableSortStable(s, t);
    }
    SortedSameGroupsEqual(r, StableSort(s));
  }

  // ---------------------------------------------------------------------------
  // `records.sort(key=lambda x: x['submitTime'])` on the list in place

  /**
   Where the insertion puts `x`: after the first `j` records when the one
   before that gap is not later than `x` and every record from the gap on is.
   */
  lemma {:induction false} InsertAt(done: seq<Record>, x: Record, j: nat)
    requires j <= |done| && (j == 0 || done[j - 1].submitTime <= x.submitTime)
    requires forall k :: j <= k < |done| ==> done[k].submitTime > x.submitTime
    ensures Insert(done, x) == done[..j] + [x] + done[j..]
  {
    if j < |done| {
      var init, last := done[..|done| - 1], done[|done| - 1];
      InsertAt(init, x, j);
      assert init[..j] == done[..j];
      assert done[j..] == init[j..] + [last];
    }
  }

  /** The array slice after the last store: `x` in the gap, the shifted records on either side. */
  lemma Placed(s: seq<Record>, done: seq<Record>, x: Record, j: nat)
    requires j <= |done| && |s| == |done| + 1
    requires forall k :: 0 <= k < j ==> s[k] == done[k]
    requires s[j] == x
    requires forall k :: j < k < |s| ==> s[k] == done[k - 1]
    ensures s == done[..j] + [x] + done[j..]
  {
  }

  /** Moves `a[i]` left into the sorted prefix `a[..i]`, shifting later records right. */
  method InsertInPlace(a: array<Record>, i: nat)
    requires i < a.Length
    modifies a
    ensures a[..i + 1] == Insert(old(a[..i]), old(a[i]))
    ensures forall k :: i < k < a.Length ==> a[k] == old(a[k])
  {
    ghost var done := a[..i];
    var x := a[i];
    var j := i;
    while j > 0 && a[j - 1].submitTime > x.submitTime
      invariant 0 <= j <= i
      invariant forall k :: 0 <= k < j ==> a[k] == done[k]
      invariant forall k :: j < k <= i ==> a[k] == done[k - 1]
      invariant forall k :: i < k < a.Length ==> a[k] == old(a[k])
      invariant forall k :: j <= k < i ==> done[k].submitTime > x.submitTime
    {
      a[j] := a[j - 1];
      j := j - 1;
    }
    a[j] := x;
    InsertAt(done, x, j);
    Placed(a[..i + 1], done, x, j);
  }

  method SortBySubmitTime(a: array<Record>)
    modifies a
    ensures a[..] == StableSort(old(a[..]))
  {
    ghost var input := a[..];
    var i := 0;
    while i < a.Length
      invariant 0 <= i <= a.Length
      invariant a[..i] == StableSort(input[..i])
      invariant forall k :: i <= k < a.Length ==> a[k] == input[k]
    {
      InsertInPlace(a, i);
      assert input[..i + 1][..i] == input[..i];
      i := i + 1;
    }
    assert input[..a.Length] == input;
  }

  // ---------------------------------------------------------------------------
  // `fetch_submissions` / `fetch_luogu_submissions` after the HTTP call

  /** The list the fetch returns for a response: empty on any failure. */
  function Fetched(resp: Response, count: int): seq<Record>
  {
    if resp.Failed? || resp.code != 200 || resp.result.None? then []
    else Take(StableSort(resp.result.value), Min(count, |resp.result.value|))
  }

  lemma WithTimePrefix(s: seq<Record>, p: seq<Record>, t: int)
    requires p <= s
    ensures WithTime(p, t) <= WithTime(s, t)
    decreases |s|
  {
    if |p| < |s| {
      var init := s[..|s| - 1];
      assert p <= init;
      WithTimePrefix(init, p, t);
    } else {
      assert p == s;
    }
  }

  /** A prefix of a stable sort keeps the input's order among equal times. */
  lemma SortedPrefixStable(input: seq<Record>, out: seq<Record>)
    requires out <= StableSort(input)
    ensures forall t :: WithTime(out, t) <= WithTime(input, t)
  {
    forall t ensures WithTime(out, t) <= WithTime(input, t) {
      WithTimePrefix(StableSort(input), out, t);
      StableSortStable(input, t);
    }
  }

  /** A prefix of a stable sort holds only records of the input. */
  lemma SortedPrefixFromInput(input: seq<Record>, out: seq<Record>)
    requires out <= StableSort(input)
    ensures multiset(out) <= multiset(input)
    ensures SortedByTime(out)
  {
    var sorted := StableSort(input);
    StableSortSorted(input);
    StableSortPermutes(input);
    assert sorted == out + sorted[|out|..];
  }

  /**
   What the fetch promises: an unusable response gives no records; a usable
   one gives the first `min(count, n)` records of the stable sort, which are
   in ascending time order, come from the response, and keep the response's
   order among equal times.
   */
  lemma FetchedSpec(resp: Response, count: int)
    ensures resp.Failed? || resp.code != 200 || resp.result.None? ==> Fetched(resp, count) == []
    ensures SortedByTime(Fetched(resp, count))
    ensures resp.Payload? && resp.code == 200 && resp.result.Some? ==>
      var input := resp.result.value;
      var out := Fetched(resp, count);
      && out <= StableSort(input)
      && (count >= 0 ==> |out| == Min(count, |input|))
      && multiset(out) <= multiset(input)
      && forall t :: WithTime(out, t) <= WithTime(input, t)
  {
    if resp.Payload? && resp.code == 200 && resp.result.Some? {
      var input := resp.result.value;
      var out := Fetched(resp, count);
      StableSortPermutes(input);
      SortedPrefixFromInput(input, out);
      SortedPrefixStable(input, out);
    }
  }

  /** The fetch step itself: the response's list is sorted in place, then sliced. */
  method FetchSubmissions(resp: Response, count: int) returns (records: seq<Record>)
    ensures records == Fetched(resp, count)
  {
    if resp.Failed? || resp.code != 200 || resp.result.None? {
      return [];
    }
    var result := resp.result.value;
    var a := new Record[|result|](k requires 0 <= k < |result| => result[k]);
    assert a[..] == result;
    SortBySubmitTime(a);
    records := Take(a[..], Min(count, a.Length));
  }
}
