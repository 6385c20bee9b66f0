/**
 The order of the timer queue, over deadlines in microseconds. Comparison truncates to milliseconds,
 so deadlines are sorted only up to one millisecond.
 */
module TimerOrder {
  import opened Words

  ghost predicate Ordered(ds: seq<int>) {
    forall i, j :: 0 <= i < j < |ds| ==> ds[i] < ds[j] + 1000
  }

  lemma OrderedCons(d: int, ds: seq<int>)
    ensures Ordered([d] + ds) <==> Ordered(ds) && forall i :: 0 <= i < |ds| ==> d < ds[i] + 1000
  {
    var r := [d] + ds;
    assert forall i :: 0 <= i < |ds| ==> r[i + 1] == ds[i];
    if Ordered(r) {
      forall i, j | 0 <= i < j < |ds|
        ensures ds[i] < ds[j] + 1000
      {
        assert r[i + 1] < r[j + 1] + 1000;
      }
      forall i | 0 <= i < |ds|
        ensures d < ds[i] + 1000
      {
        assert r[0] < r[i + 1] + 1000;
      }
    }
  }

  /** No deadline is before `floor`. */
  predicate NotBefore(ds: seq<int>, floor: int) {
    forall i :: 0 <= i < |ds| ==> floor <= ds[i]
  }

  /** timer_add stops before the first timer that is later by at least a millisecond. */
  function Place(ds: seq<int>, d: int): (k: nat)
    ensures k <= |ds|
  {
    if ds == [] || DiffMs(d - ds[0]) < 0 then 0 else 1 + Place(ds[1..], d)
  }

  /** timer_timeout harvests up to the first timer that is due a millisecond or more from now. */
  function Due(ds: seq<int>, now: int): (k: nat)
    ensures k <= |ds|
  {
    if ds == [] || DiffMs(ds[0] - now) > 0 then 0 else 1 + Due(ds[1..], now)
  }

  lemma {:induction false} PlaceIsFirst(ds: seq<int>, d: int)
    ensures var k := Place(ds, d);
            && (forall i :: 0 <= i < k ==> d > ds[i] - 1000)
            && (k < |ds| ==> d <= ds[k] - 1000)
  {
    if ds != [] && DiffMs(d - ds[0]) >= 0 {
      PlaceIsFirst(ds[1..], d);
      var k := Place(ds[1..], d);
      assert forall i :: 0 < i < |ds| ==> ds[i] == ds[1..][i - 1];
      DiffMsSign(d - ds[0]);
    }
  }

  /** What a loop that has passed the first k timers knows about the place. */
  lemma {:induction false} PlaceAt(ds: seq<int>, d: int, k: nat)
    requires k <= |ds| && (forall i :: 0 <= i < k ==> DiffMs(d - ds[i]) >= 0)
    requires k < |ds| ==> DiffMs(d - ds[k]) < 0
    ensures Place(ds, d) == k
  {
    if k > 0 {
      assert forall i :: 0 < i < |ds| ==> ds[i] == ds[1..][i - 1];
      PlaceAt(ds[1..], d, k - 1);
    }
  }

  lemma DueStep(ds: seq<int>, now: int, k: nat)
    requires k < |ds| && DiffMs(ds[k] - now) <= 0
    ensures ds[k..][1..] == ds[k + 1..] && Due(ds[k..], now) == 1 + Due(ds[k + 1..], now)
  {
  }

  /** Insertion keeps the order, for every new deadline. */
  lemma PlaceKeepsOrder(ds: seq<int>, d: int)
    requires Ordered(ds)
    ensures Ordered(Placed(ds, d))
  {
    PlaceIsFirst(ds, d);
    var k := Place(ds, d);
    var r := ds[..k] + [d] + ds[k..];
    forall i, j | 0 <= i < j < |r|
      ensures r[i] < r[j] + 1000
    {
      var a, b := if i < k then i else i - 1, if j < k then j else j - 1;
      assert i < k ==> r[i] == ds[a];
      assert i > k ==> r[i] == ds[a];
      assert j > k ==> r[j] == ds[b];
      if i == k && b > k {
        assert ds[k] < ds[b] + 1000;
      }
    }
  }

  function Placed(ds: seq<int>, d: int): (r: seq<int>) {
    var k := Place(ds, d);
    ds[..k] + [d] + ds[k..]
  }

  /** The harvest is sound both ways: what is left is strictly later than now, and what was taken was due
      less than a millisecond from now. */
  lemma DueIsSound(ds: seq<int>, now: int)
    requires Ordered(ds)
    ensures var k := Due(ds, now);
            && (forall i :: 0 <= i < k ==> ds[i] < now + 1000)
            && (forall i :: k <= i < |ds| ==> ds[i] > now)
  {
    DueIsPrefix(ds, now);
    var k := Due(ds, now);
    forall i | k <= i < |ds|
      ensures ds[i] > now
    {
      assert i > k ==> ds[k] < ds[i] + 1000;
    }
  }

  lemma {:induction false} DueIsPrefix(ds: seq<int>, now: int)
    ensures var k := Due(ds, now);
            && (forall i :: 0 <= i < k ==> ds[i] < now + 1000)
            && (k < |ds| ==> ds[k] >= now + 1000)
  {
    if ds != [] && DiffMs(ds[0] - now) <= 0 {
      DueIsPrefix(ds[1..], now);
      assert forall i :: 0 < i < |ds| ==> ds[i] == ds[1..][i - 1];
      DiffMsSign(ds[0] - now);
    }
  }

  lemma LeftIsLater(ds: seq<int>, now: int)
    requires Ordered(ds)
    ensures Ordered(ds[Due(ds, now)..]) && NotBefore(ds[Due(ds, now)..], now)
  {
    DueIsSound(ds, now);
  }

  predicate Sorted(ds: seq<int>) {
    forall i, j :: 0 <= i < j < |ds| ==> ds[i] <= ds[j]
  }

  /** Some queued deadline is later than d by less than a millisecond. */
  predicate Blurs(ds: seq<int>, d: int) {
    exists i :: 0 <= i < |ds| && d < ds[i] < d + 1000
  }

  /** In the plain sense the queue is sorted after an insertion exactly if it was before, and no queued deadline
      is later than the new one by less than a millisecond: behind such a deadline the new timer is placed. */
  lemma StaysSortedIff(ds: seq<int>, d: int)
    ensures Sorted(Placed(ds, d)) <==> Sorted(ds) && !Blurs(ds, d)
  {
    if Sorted(Placed(ds, d)) {
      WasSorted(ds, d);
    }
    if Sorted(ds) && !Blurs(ds, d) {
      StaysSorted(ds, d);
    }
  }

  lemma WasSorted(ds: seq<int>, d: int)
    requires Sorted(Placed(ds, d))
    ensures Sorted(ds) && !Blurs(ds, d)
  {
    PlaceIsFirst(ds, d);
    PlacedParts(ds, d);
    var k, r := Place(ds, d), Placed(ds, d);
    forall i, j | 0 <= i < j < |ds|
      ensures ds[i] <= ds[j]
    {
      assert r[if i < k then i else i + 1] <= r[if j < k then j else j + 1];
    }
    forall i | 0 <= i < |ds|
      ensures ds[i] <= d || ds[i] >= d + 1000
    {
      if i < k {
        assert r[i] <= r[k];
      } else if k < i {
        assert ds[k] <= ds[i];
      }
    }
  }

  lemma StaysSorted(ds: seq<int>, d: int)
    requires Sorted(ds) && !Blurs(ds, d)
    ensures Sorted(Placed(ds, d))
  {
    PlaceIsFirst(ds, d);
    PlacedParts(ds, d);
    var k, r := Place(ds, d), Placed(ds, d);
    forall i, j | 0 <= i < j < |r|
      ensures r[i] <= r[j]
    {
      if i == k {
        assert r[j] == ds[j - 1] && (k < j - 1 ==> ds[k] <= ds[j - 1]);
      } else if j == k {
        assert r[i] == ds[i];
      } else {
        var a, b := if i < k then i else i - 1, if j < k then j else j - 1;
        assert r[i] == ds[a] && r[j] == ds[b];
      }
    }
  }

  lemma PlacedParts(ds: seq<int>, d: int)
    ensures var k, r := Place(ds, d), Placed(ds, d);
            && |r| == |ds| + 1 && r[k] == d
            && (forall i :: 0 <= i < k ==> r[i] == ds[i]) && forall i :: k <= i < |ds| ==> r[i + 1] == ds[i]
  {
  }

  /** An earlier timer can be placed after a later one. */
  lemma PlainOrderIsLost()
    ensures var ds := [2000];
            Sorted(ds) && Blurs(ds, 1500) && Placed(ds, 1500) == [2000, 1500]
  {
    var ds := [2000];
    assert ds[0] == 2000;
    assert Place([2000], 1500) == 1 + Place([2000][1..], 1500);
  }
}

/**
 Which harvested timers fire. A firing handler may take timers out of the list of expired ones, by
 removing or re-arming them; `touched` says which.
 */
module Firing {
  import opened Sequences

  function Without<T(==)>(s: seq<T>, x: set<T>): (r: seq<T>) {
    if s == [] then [] else if s[0] in x then Without(s[1..], x) else [s[0]] + Without(s[1..], x)
  }

  function Touched<T(==)>(touched: map<T, set<T>>, t: T): (s: set<T>) {
    if t in touched then touched[t] else {}
  }

  lemma {:induction false} WithoutShrinks<T>(s: seq<T>, x: set<T>)
    ensures |Without(s, x)| <= |s|
    ensures forall y :: y in Without(s, x) <==> y in s && y !in x
  {
    if s != [] {
      WithoutShrinks(s[1..], x);
    }
  }

  lemma {:induction false} WithoutNone<T>(s: seq<T>, x: set<T>)
    requires forall t :: t in s ==> t !in x
    ensures Without(s, x) == s
  {
    if s != [] {
      WithoutNone(s[1..], x);
    }
  }

  lemma {:induction false} WithoutTwice<T>(s: seq<T>, x: set<T>, y: set<T>)
    ensures Without(Without(s, x), y) == Without(s, x + y)
  {
    if s != [] {
      WithoutTwice(s[1..], x, y);
      if s[0] !in x {
        assert ([s[0]] + Without(s[1..], x))[1..] == Without(s[1..], x);
      }
    }
  }

  /** Take the first, run its handler, go on with what the handler has left. */
  function Fired<T(==)>(pending: seq<T>, touched: map<T, set<T>>): (r: seq<T>)
    decreases |pending|
  {
    if pending == [] then []
    else
      WithoutShrinks(pending[1..], Touched(touched, pending[0]));
      [pending[0]] + Fired(Without(pending[1..], Touched(touched, pending[0])), touched)
  }

  lemma FiredStep<T>(pending: seq<T>, touched: map<T, set<T>>)
    requires pending != []
    ensures var rest := Without(pending[1..], Touched(touched, pending[0]));
            |rest| < |pending|
            && forall done: seq<T> ::
                 done + Fired(pending, touched) == done + [pending[0]] + Fired(rest, touched)
  {
    WithoutShrinks(pending[1..], Touched(touched, pending[0]));
  }

  lemma {:induction false} WithoutKeepsNoDuplicates<T>(s: seq<T>, x: set<T>)
    requires NoDuplicates(s)
    ensures NoDuplicates(Without(s, x))
  {
    if s != [] {
      WithoutKeepsNoDuplicates(s[1..], x);
      WithoutShrinks(s[1..], x);
      if s[0] !in x {
        assert ([s[0]] + Without(s[1..], x))[1..] == Without(s[1..], x);
      }
    }
  }

  /** No timer fires twice, and only harvested ones fire. */
  lemma {:induction false} FiredOnce<T>(pending: seq<T>, touched: map<T, set<T>>)
    requires NoDuplicates(pending)
    ensures NoDuplicates(Fired(pending, touched))
    ensures forall t :: t in Fired(pending, touched) ==> t in pending
    decreases |pending|
  {
    if pending != [] {
      var rest := Without(pending[1..], Touched(touched, pending[0]));
      WithoutShrinks(pending[1..], Touched(touched, pending[0]));
      WithoutKeepsNoDuplicates(pending[1..], Touched(touched, pending[0]));
      FiredOnce(rest, touched);
      assert ([pending[0]] + Fired(rest, touched))[1..] == Fired(rest, touched);
    }
  }

  /** A harvested timer fires exactly when no timer that fired before it has touched it. */
  lemma {:induction false} FiresIffUndisturbed<T>(pending: seq<T>, touched: map<T, set<T>>, t: T)
    requires NoDuplicates(pending) && t in pending
    ensures t in Fired(pending, touched) <==>
            forall u :: u in Fired(pending, touched) && Before(pending, u, t) ==> t !in Touched(touched, u)
    decreases |pending|
  {
    var u0 := pending[0];
    var x := Touched(touched, u0);
    var rest := Without(pending[1..], x);
    WithoutShrinks(pending[1..], x);
    WithoutKeepsNoDuplicates(pending[1..], x);
    FiredOnce(pending, touched);
    FiredOnce(rest, touched);
    if t == u0 {
      forall u | u in Fired(pending, touched)
        ensures !Before(pending, u, t)
      {
        BeforeFacts(pending, u, t);
      }
    } else if t in x {
      BeforeFacts(pending, u0, t);
      assert u0 in Fired(pending, touched);
    } else {
      FiresIffUndisturbed(rest, touched, t);
      forall u | u in Fired(rest, touched)
        ensures Before(rest, u, t) <==> Before(pending, u, t)
      {
        BeforeWithout(pending[1..], x, u, t);
        BeforeFacts(pending, u, t);
      }
      BeforeFacts(pending, u0, t);
    }
  }

  /** u stands before t in s. */
  predicate Before<T(==)>(s: seq<T>, u: T, t: T) {
    s != [] && u != t && (if s[0] == u then t in s[1..] else s[0] != t && Before(s[1..], u, t))
  }

  lemma BeforeFacts<T>(s: seq<T>, u: T, t: T)
    requires s != []
    ensures s[0] == t ==> !Before(s, u, t)
    ensures s[0] == u && t in s && u != t ==> Before(s, u, t)
    ensures s[0] != u && s[0] != t ==> (Before(s, u, t) <==> Before(s[1..], u, t))
  {
  }

  lemma {:induction false} BeforeWithout<T>(s: seq<T>, x: set<T>, u: T, t: T)
    requires u !in x && t !in x
    ensures Before(Without(s, x), u, t) <==> Before(s, u, t)
  {
    if s != [] {
      BeforeWithout(s[1..], x, u, t);
      WithoutShrinks(s[1..], x);
      if s[0] !in x {
        assert ([s[0]] + Without(s[1..], x))[1..] == Without(s[1..], x);
      }
    }
  }

  /** Timers fire in the order in which they were queued. */
  lemma {:induction false} FiredInOrder<T>(pending: seq<T>, touched: map<T, set<T>>, u: T, t: T)
    requires NoDuplicates(pending) && Before(Fired(pending, touched), u, t)
    ensures Before(pending, u, t)
    decreases |pending|
  {
    var x := Touched(touched, pending[0]);
    var rest := Without(pending[1..], x);
    var fired := Fired(pending, touched);
    WithoutShrinks(pending[1..], x);
    WithoutKeepsNoDuplicates(pending[1..], x);
    FiredOnce(rest, touched);
    assert fired[1..] == Fired(rest, touched);
    if pending[0] != u {
      FiredInOrder(rest, touched, u, t);
      BeforeMembers(rest, u, t);
      BeforeWithout(pending[1..], x, u, t);
    }
  }

  lemma {:induction false} BeforeMembers<T>(s: seq<T>, u: T, t: T)
    requires Before(s, u, t)
    ensures u in s && t in s
  {
    if s[0] != u {
      BeforeMembers(s[1..], u, t);
    }
  }
}
