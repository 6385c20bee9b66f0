/**
 The kernel's expiry list: routes ordered by the time they expire, with a counter that limits its length.
 Times are in jiffies, and the timer that would expire the entries is compiled out.
 */
module ExpiryList {
  import opened Words

  const MAX_LEN := 1024

  datatype Route = Route(nhop: u32, encap: bool, repair: bool, ifindex: int)

  datatype Entry = Entry(daddr: u32, route: Route, expires: int)

  /** The list, head first, and the counter `expl_len`. */
  datatype Expl = Expl(list: seq<Entry>, len: int)

  /** The outcome of an operation: the source's 1, 0, -1 and -ENOSPC. */
  datatype Status = Done | Untouched | Missing | NoSpace

  /** The first entry that expires later. */
  function Position(list: seq<Entry>, expires: int): (k: nat)
    ensures k <= |list|
  {
    if list == [] || list[0].expires > expires then 0 else 1 + Position(list[1..], expires)
  }

  function Inserted(list: seq<Entry>, e: Entry): (r: seq<Entry>) {
    var k := Position(list, e.expires);
    list[..k] + [e] + list[k..]
  }

  /** The first entry for d, or the length of the list. */
  function Find(list: seq<Entry>, d: u32): (k: nat)
    ensures k <= |list|
  {
    if list == [] || list[0].daddr == d then 0 else 1 + Find(list[1..], d)
  }

  predicate Has(s: Expl, d: u32) { Find(s.list, d) < |s.list| }

  function Unlinked(list: seq<Entry>, k: nat): (r: seq<Entry>)
    requires k < |list|
  {
    list[..k] + list[k + 1..]
  }

  function RawAdd(s: Expl, e: Entry): (r: (Expl, bool)) {
    if s.len > MAX_LEN then (s, false) else (s.(list := Inserted(s.list, e)), true)
  }

  /** kaodv_expl_add: an add that is refused is counted all the same. */
  function Add(s: Expl, e: Entry): (r: (Expl, Status)) {
    if Has(s, e.daddr) then (s, Untouched)
    else
      var (s1, ok) := RawAdd(s, e);
      (s1.(len := s.len + 1), if ok then Done else NoSpace)
  }

  /** kaodv_expl_update: an entry that cannot be added back is gone. */
  function Update(s: Expl, e: Entry): (r: (Expl, Status)) {
    if !Has(s, e.daddr) then (s, Missing)
    else (RawAdd(s.(list := Unlinked(s.list, Find(s.list, e.daddr))), e).0, Done)
  }

  function Del(s: Expl, d: u32): (r: (Expl, Status)) {
    if !Has(s, d) then (s, Untouched) else (Expl(Unlinked(s.list, Find(s.list, d)), s.len - 1), Done)
  }

  // ----- the list as a finite map --------------------------------------------------------------------

  function Table(list: seq<Entry>): (m: map<u32, Entry>) {
    if list == [] then map[] else Table(list[1..])[list[0].daddr := list[0]]
  }

  predicate Sorted(list: seq<Entry>) {
    forall i, j :: 0 <= i < j < |list| ==> list[i].expires <= list[j].expires
  }

  predicate Distinct(list: seq<Entry>) {
    list == [] || (list[0].daddr !in Table(list[1..]) && Distinct(list[1..]))
  }

  lemma {:induction false} FindIsLookup(list: seq<Entry>, d: u32)
    ensures Find(list, d) < |list| <==> d in Table(list)
    ensures d in Table(list) ==> list[Find(list, d)] == Table(list)[d] && Table(list)[d].daddr == d
  {
    if list != [] {
      FindIsLookup(list[1..], d);
    }
  }

  /** A new key may be put anywhere: the map does not depend on the order. */
  lemma {:induction false} TableInsert(a: seq<Entry>, e: Entry, b: seq<Entry>)
    requires e.daddr !in Table(a + b)
    ensures Table(a + [e] + b) == Table(a + b)[e.daddr := e]
    ensures Distinct(a + [e] + b) <==> Distinct(a + b)
  {
    if a == [] {
      assert [] + b == b && [] + [e] + b == [e] + b && ([e] + b)[1..] == b;
    } else {
      assert (a + [e] + b)[1..] == a[1..] + [e] + b && (a + b)[1..] == a[1..] + b;
      TableInsert(a[1..], e, b);
    }
  }

  lemma {:induction false} TableRemove(list: seq<Entry>, k: nat)
    requires k < |list| && Distinct(list)
    ensures Table(Unlinked(list, k)) == Table(list) - {list[k].daddr}
    ensures Distinct(Unlinked(list, k)) && list[k].daddr in Table(list)
  {
    if k == 0 {
      assert Unlinked(list, 0) == list[1..];
    } else {
      TableRemove(list[1..], k - 1);
      assert list[1..][k - 1] == list[k];
      assert Unlinked(list, k) == [list[0]] + Unlinked(list[1..], k - 1);
    }
  }

  /** An entry goes behind every entry that expires no later, and before all that expire later. */
  lemma {:induction false} PositionIsStable(list: seq<Entry>, expires: int)
    requires Sorted(list)
    ensures var k := Position(list, expires);
            (forall i :: 0 <= i < k ==> list[i].expires <= expires)
                && (forall i :: k <= i < |list| ==> list[i].expires > expires)
  {
    if list != [] && list[0].expires <= expires {
      PositionIsStable(list[1..], expires);
      var k := Position(list[1..], expires);
      assert forall i :: 0 < i < |list| ==> list[i] == list[1..][i - 1];
    }
  }

  lemma InsertKeepsSorted(list: seq<Entry>, e: Entry)
    requires Sorted(list)
    ensures Sorted(Inserted(list, e))
  {
    PositionIsStable(list, e.expires);
  }

  ghost predicate Ok(s: Expl) { Sorted(s.list) && Distinct(s.list) }

  /** Below the limit an add of a new destination is a map update, and above it the list stays as it was:
      the condition is exact. */
  lemma AddIff(s: Expl, e: Entry)
    requires Ok(s) && e.daddr !in Table(s.list)
    ensures var (s', _) := Add(s, e);
            && Ok(s') && s'.len == s.len + 1
            && (Table(s'.list) == Table(s.list)[e.daddr := e] <==> s.len <= MAX_LEN)
            && (Table(s'.list) == Table(s.list) <==> s.len > MAX_LEN)
  {
    FindIsLookup(s.list, e.daddr);
    var k := Position(s.list, e.expires);
    assert s.list == s.list[..k] + s.list[k..];
    TableInsert(s.list[..k], e, s.list[k..]);
    InsertKeepsSorted(s.list, e);
  }

  /** Below the limit an update of a known destination is a map update; above it the entry is lost. */
  lemma UpdateIff(s: Expl, e: Entry)
    requires Ok(s) && e.daddr in Table(s.list)
    ensures var (s', _) := Update(s, e);
            && Ok(s') && s'.len == s.len
            && (Table(s'.list) == Table(s.list)[e.daddr := e] <==> s.len <= MAX_LEN)
            && (Table(s'.list) == Table(s.list) - {e.daddr} <==> s.len > MAX_LEN)
  {
    FindIsLookup(s.list, e.daddr);
    var j := Find(s.list, e.daddr);
    TableRemove(s.list, j);
    var rest := Unlinked(s.list, j);
    RemoveKeepsSorted(s.list, j);
    var k := Position(rest, e.expires);
    assert rest == rest[..k] + rest[k..];
    TableInsert(rest[..k], e, rest[k..]);
    InsertKeepsSorted(rest, e);
    assert (Table(s.list) - {e.daddr})[e.daddr := e] == Table(s.list)[e.daddr := e];
    assert e.daddr !in Table(s.list) - {e.daddr};
  }

  lemma RemoveKeepsSorted(list: seq<Entry>, k: nat)
    requires Sorted(list) && k < |list|
    ensures Sorted(Unlinked(list, k))
  {
  }

  lemma DelRemoves(s: Expl, d: u32)
    requires Ok(s)
    ensures var (s', st) := Del(s, d);
            && Ok(s') && Table(s'.list) == Table(s.list) - {d}
            && (st == Done <==> d in Table(s.list)) && s'.len == s.len - (if d in Table(s.list) then 1 else 0)
  {
    FindIsLookup(s.list, d);
    if Has(s, d) {
      TableRemove(s.list, Find(s.list, d));
      RemoveKeepsSorted(s.list, Find(s.list, d));
    }
  }

  /** What an operation reports: a known destination is not added, an unknown one not updated or deleted, and above
      the limit an unknown one is refused. */
  lemma StatusIff(s: Expl, e: Entry, d: u32)
    requires Ok(s)
    ensures Add(s, e).1 == if e.daddr in Table(s.list) then Untouched else if s.len <= MAX_LEN then Done else NoSpace
    ensures e.daddr in Table(s.list) ==> Add(s, e).0 == s
    ensures Update(s, e).1 == if e.daddr in Table(s.list) then Done else Missing
    ensures e.daddr !in Table(s.list) ==> Update(s, e).0 == s
    ensures Del(s, d).1 == if d in Table(s.list) then Done else Untouched
  {
    FindIsLookup(s.list, e.daddr);
    FindIsLookup(s.list, d);
  }

  // ----- runs ----------------------------------------------------------------------------------------

  datatype Op = AddOp(e: Entry) | UpdateOp(e: Entry) | DelOp(d: u32)

  function Do(s: Expl, op: Op): (s': Expl) {
    match op
    case AddOp(e) => Add(s, e).0
    case UpdateOp(e) => Update(s, e).0
    case DelOp(d) => Del(s, d).0
  }

  /** The same operation on a finite map. */
  function MapDo(m: map<u32, Entry>, op: Op): (m': map<u32, Entry>) {
    match op
    case AddOp(e) => if e.daddr in m then m else m[e.daddr := e]
    case UpdateOp(e) => if e.daddr in m then m[e.daddr := e] else m
    case DelOp(d) => m - {d}
  }

  /** The operation runs into the limit. */
  predicate Refused(s: Expl, op: Op) {
    s.len > MAX_LEN && ((op.AddOp? && !Has(s, op.e.daddr)) || (op.UpdateOp? && Has(s, op.e.daddr)))
  }

  function Refusals(s: Expl, ops: seq<Op>): (n: nat)
    decreases ops
  {
    if ops == [] then 0 else (if Refused(s, ops[0]) then 1 else 0) + Refusals(Do(s, ops[0]), ops[1..])
  }

  function Run(s: Expl, ops: seq<Op>): (s': Expl)
    decreases ops
  {
    if ops == [] then s else Run(Do(s, ops[0]), ops[1..])
  }

  function MapRun(m: map<u32, Entry>, ops: seq<Op>): (m': map<u32, Entry>)
    decreases ops
  {
    if ops == [] then m else MapRun(MapDo(m, ops[0]), ops[1..])
  }

  /** What one operation keeps, counts and loses. */
  lemma DoKeeps(s: Expl, op: Op)
    requires Ok(s)
    ensures Ok(Do(s, op))
    ensures Table(Do(s, op).list) == MapDo(Table(s.list), op) <==> !Refused(s, op)
    ensures Do(s, op).len - |Do(s, op).list| == s.len - |s.list| + if Refused(s, op) then 1 else 0
  {
    match op
    case AddOp(e) =>
      FindIsLookup(s.list, e.daddr);
      if !Has(s, e.daddr) {
        AddIff(s, e);
      }
    case UpdateOp(e) =>
      FindIsLookup(s.list, e.daddr);
      if Has(s, e.daddr) {
        UpdateIff(s, e);
        assert e.daddr !in Table(s.list) - {e.daddr};
      }
    case DelOp(d) =>
      FindIsLookup(s.list, d);
      DelRemoves(s, d);
  }

  /** Over a whole run the list is sorted with one entry a destination, and the counter runs ahead of the
      list by exactly the number of refusals. */
  lemma {:induction false} CounterOverRuns(s: Expl, ops: seq<Op>)
    requires Ok(s)
    ensures Ok(Run(s, ops))
    ensures Run(s, ops).len - |Run(s, ops).list| == s.len - |s.list| + Refusals(s, ops)
    decreases ops
  {
    if ops != [] {
      DoKeeps(s, ops[0]);
      CounterOverRuns(Do(s, ops[0]), ops[1..]);
    }
  }

  /** A run that is never refused is a run of a finite map, and its counter is the length of the list. */
  lemma {:induction false} RefinesMap(s: Expl, ops: seq<Op>)
    requires Ok(s) && Refusals(s, ops) == 0
    ensures Table(Run(s, ops).list) == MapRun(Table(s.list), ops)
    ensures s.len == |s.list| ==> Run(s, ops).len == |Run(s, ops).list|
    decreases ops
  {
    CounterOverRuns(s, ops);
    if ops != [] {
      DoKeeps(s, ops[0]);
      RefinesMap(Do(s, ops[0]), ops[1..]);
    }
  }

  /** Once an operation is refused the counter stays ahead of the list whatever follows. */
  lemma RefusalIsForever(s: Expl, ops: seq<Op>, more: seq<Op>)
    requires Ok(s) && s.len >= |s.list| && Refusals(s, ops) > 0
    ensures Run(Run(s, ops), more).len > |Run(Run(s, ops), more).list|
  {
    CounterOverRuns(s, ops);
    CounterOverRuns(Run(s, ops), more);
  }

  // ----- the list as the kernel module keeps it --------------------------------------------------------

  class KernelList {
    var list: seq<Entry>
    var len: int

    ghost function State(): (s: Expl)
      reads this
    {
      Expl(list, len)
    }

    /** kaodv_expl_init. */
    constructor ()
      ensures State() == Expl([], 0) && Ok(State())
    {
      list, len := [], 0;
    }

    /** __kaodv_expl_check. */
    method Check(d: u32) returns (k: nat)
      ensures k == Find(list, d)
    {
      k := 0;
      while k < |list| && list[k].daddr != d
        invariant k <= |list| && Find(list, d) == k + Find(list[k..], d)
      {
        assert list[k..][1..] == list[k + 1..];
        k := k + 1;
      }
    }

    /** kaodv_expl_get. */
    method Get(d: u32) returns (found: bool, e: Entry)
      requires Ok(State())
      ensures found <==> d in Table(list)
      ensures found ==> e == Table(list)[d]
    {
      FindIsLookup(list, d);
      var k := Check(d);
      if k < |list| {
        return true, list[k];
      }
      return false, Entry(d, Route(0, false, false, 0), 0);
    }

    /** __kaodv_expl_add. */
    method Insert(e: Entry) returns (ok: bool)
      modifies this`list
      ensures (State(), ok) == RawAdd(old(State()), e)
    {
      if len > MAX_LEN {
        return false;
      }
      var k := 0;
      while k < |list| && list[k].expires <= e.expires
        invariant k <= |list| && Position(list, e.expires) == k + Position(list[k..], e.expires)
      {
        assert list[k..][1..] == list[k + 1..];
        k := k + 1;
      }
      list := list[..k] + [e] + list[k..];
      return true;
    }

    /** kaodv_expl_add. */
    method AddEntry(e: Entry) returns (status: Status)
      modifies this
      ensures (State(), status) == Add(old(State()), e)
    {
      var k := Check(e.daddr);
      if k < |list| {
        return Untouched;
      }
      var ok := Insert(e);
      len := len + 1;
      return if ok then Done else NoSpace;
    }

    /** kaodv_expl_update. */
    method UpdateEntry(e: Entry) returns (status: Status)
      modifies this
      ensures (State(), status) == Update(old(State()), e)
    {
      var k := Check(e.daddr);
      if k == |list| {
        return Missing;
      }
      list := list[..k] + list[k + 1..];
      var _ := Insert(e);
      return Done;
    }

    /** kaodv_expl_del. */
    method DelEntry(d: u32) returns (status: Status)
      modifies this
      ensures (State(), status) == Del(old(State()), d)
    {
      var k := Check(d);
      if k == |list| {
        return Untouched;
      }
      list := list[..k] + list[k + 1..];
      len := len - 1;
      return Done;
    }

    /** __kaodv_expl_flush. */
    method Flush()
      modifies this
      ensures list == [] && len == old(len) - |old(list)|
    {
      while list != []
        invariant len - |list| == old(len) - |old(list)|
        decreases |list|
      {
        list := list[1..];
        len := len - 1;
      }
    }
  }
}
