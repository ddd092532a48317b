/** The projections the popup and the gallery apply to the stored screenshots:
    keep one session's screenshots, order them by timestamp, keep the first few.
    SortByTime is an insertion sort with the comparator of `Array.prototype.sort`
    in the source. It is proved to return an ordered permutation of its input;
    that it keeps screenshots with equal timestamps in input order, as the
    stable built-in sort does, is by construction and is not proved. */
module Listing {
  import opened Records

  /** Keeps every screenshot when `sid` is None, else those whose `sessionId` is `sid`. */
  predicate Kept(s: Screenshot, sid: Option<Id>)
  {
    sid.None? || s.sessionId == sid
  }

  function InSession(vals: seq<Screenshot>, sid: Option<Id>): (r: seq<Screenshot>)
    ensures |r| <= |vals|
    ensures forall i :: 0 <= i < |r| ==> Kept(r[i], sid)
    ensures sid.None? ==> r == vals
  {
    if vals == [] then []
    else
      var last := vals[|vals| - 1];
      InSession(vals[..|vals| - 1], sid) + (if Kept(last, sid) then [last] else [])
  }

  /** The kept screenshots, and only those, each as often as it occurs in the input. */
  lemma {:induction false} InSessionContents(vals: seq<Screenshot>, sid: Option<Id>)
    ensures forall s :: multiset(InSession(vals, sid))[s] == if Kept(s, sid) then multiset(vals)[s] else 0
    ensures forall s :: s in InSession(vals, sid) <==> s in vals && Kept(s, sid)
  {
    if vals != [] {
      var init := vals[..|vals| - 1];
      InSessionContents(init, sid);
      assert vals == init + [vals[|vals| - 1]];
    }
  }

  /** `a` must come after `b`: with `newestFirst` the comparator is
      `b.timestamp - a.timestamp`, otherwise `a.timestamp - b.timestamp`. */
  predicate StrictlyBefore(a: Screenshot, b: Screenshot, newestFirst: bool)
  {
    if newestFirst then a.timestamp > b.timestamp else a.timestamp < b.timestamp
  }

  predicate Ordered(s: seq<Screenshot>, newestFirst: bool)
  {
    forall i, j :: 0 <= i < j < |s| ==> !StrictlyBefore(s[j], s[i], newestFirst)
  }

  /** Places `x` after every element that is not strictly after it, which keeps ties in input order. */
  function Insert(s: seq<Screenshot>, x: Screenshot, newestFirst: bool): (r: seq<Screenshot>)
    ensures multiset(r) == multiset(s) + multiset{x}
    ensures |r| == |s| + 1
  {
    if s == [] then [x]
    else if StrictlyBefore(x, s[|s| - 1], newestFirst) then
      assert s == s[..|s| - 1] + [s[|s| - 1]];
      Insert(s[..|s| - 1], x, newestFirst) + [s[|s| - 1]]
    else s + [x]
  }

  lemma {:induction false} InsertOrdered(s: seq<Screenshot>, x: Screenshot, newestFirst: bool)
    requires Ordered(s, newestFirst)
    ensures Ordered(Insert(s, x, newestFirst), newestFirst)
  {
    if s != [] && StrictlyBefore(x, s[|s| - 1], newestFirst) {
      var init, last := s[..|s| - 1], s[|s| - 1];
      InsertOrdered(init, x, newestFirst);
      var ins := Insert(init, x, newestFirst);
      forall i | 0 <= i < |ins|
        ensures !StrictlyBefore(last, ins[i], newestFirst)
      {
        assert ins[i] in multiset(ins);
        if ins[i] != x {
          assert ins[i] in multiset(init);
          var k :| 0 <= k < |init| && init[k] == ins[i];
          assert s[k] == init[k];
        }
      }
    }
  }

  /** Array.prototype.sort with a timestamp comparator. */
  function SortByTime(s: seq<Screenshot>, newestFirst: bool): (r: seq<Screenshot>)
    ensures multiset(r) == multiset(s)
    ensures |r| == |s|
    ensures Ordered(r, newestFirst)
  {
    if s == [] then []
    else
      var init := s[..|s| - 1];
      var sorted := SortByTime(init, newestFirst);
      InsertOrdered(sorted, s[|s| - 1], newestFirst);
      assert s == init + [s[|s| - 1]];
      Insert(sorted, s[|s| - 1], newestFirst)
  }

  /** `s.slice(0, n)`. */
  function Take(s: seq<Screenshot>, n: nat): (r: seq<Screenshot>)
    ensures |r| == if |s| < n then |s| else n
    ensures r == s[..|r|]
  {
    if |s| < n then s else s[..n]
  }

  /** A prefix of an ordered sequence is ordered, and nothing after the prefix
      comes strictly before anything in it. */
  lemma TakeFromOrdered(s: seq<Screenshot>, n: nat, newestFirst: bool)
    requires Ordered(s, newestFirst)
    ensures Ordered(Take(s, n), newestFirst)
    ensures forall i, j :: 0 <= i < |Take(s, n)| <= j < |s| ==> !StrictlyBefore(s[j], Take(s, n)[i], newestFirst)
  {
  }

  /** The first `n` of a newest-first sequence are at least as new as everything after them. */
  lemma PrefixIsNewest(sorted: seq<Screenshot>, n: nat)
    requires Ordered(sorted, true)
    ensures forall s :: s in Take(sorted, n) ==> s in sorted
    ensures forall s, t :: s in Take(sorted, n) && t in sorted && t !in Take(sorted, n) ==>
              s.timestamp >= t.timestamp
  {
    var r := Take(sorted, n);
    TakeFromOrdered(sorted, n, true);
    forall s, t | s in r && t in sorted && t !in r
      ensures s.timestamp >= t.timestamp
    {
      var j :| 0 <= j < |sorted| && sorted[j] == t;
      var i :| 0 <= i < |r| && r[i] == s;
      assert !StrictlyBefore(sorted[j], r[i], true);
    }
  }
}
