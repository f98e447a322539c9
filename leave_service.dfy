/**
  LeaveService: the leave ledger. The ledger holds the leave objects in
  application order and, beside them, an undo stack of the very same
  objects (its top is the last element). Approving or rejecting a request
  changes the status of the shared object, so the change is seen through
  both structures and through every other holder of that object.
*/
module LeaveServices {
  import opened Wrappers
  import opened Calendar
  import opened Leaves

  /** Whether a leave is the PENDING request of `employeeId` starting on `startDate`; the end date plays no part. */
  predicate IsPendingMatch(r: LeaveRecord, employeeId: string, startDate: LocalDate) {
    r.employeeId == employeeId && r.startDate == startDate && r.status == Pending
  }

  /** The position of the first matching PENDING request, or -1 when there is none. */
  function FirstPending(rs: seq<LeaveRecord>, employeeId: string, startDate: LocalDate): (i: int)
    ensures -1 <= i < |rs|
    ensures 0 <= i ==> IsPendingMatch(rs[i], employeeId, startDate)
    ensures forall j :: 0 <= j < |rs| && (i < 0 || j < i) ==> !IsPendingMatch(rs[j], employeeId, startDate)
    decreases |rs|
  {
    if rs == [] then -1
    else if IsPendingMatch(rs[0], employeeId, startDate) then 0
    else
      var k := FirstPending(rs[1..], employeeId, startDate);
      if k < 0 then -1 else k + 1
  }

  /** The leaves of one employee, in list order. */
  function LeavesOf(ls: seq<Leave>, employeeId: string): (r: seq<Leave>)
    ensures |r| <= |ls|
    ensures forall i :: 0 <= i < |r| ==> r[i] in ls && r[i].employeeId == employeeId
    ensures forall i :: 0 <= i < |ls| && ls[i].employeeId == employeeId ==> ls[i] in r
    decreases |ls|
  {
    if ls == [] then []
    else
      var rest := LeavesOf(ls[..|ls| - 1], employeeId);
      var l := ls[|ls| - 1];
      if l.employeeId == employeeId then rest + [l] else rest
  }

  /** Filtering a concatenation filters each part: the selection keeps list order. */
  lemma {:induction false} LeavesOfAppend(a: seq<Leave>, b: seq<Leave>, employeeId: string)
    ensures LeavesOf(a + b, employeeId) == LeavesOf(a, employeeId) + LeavesOf(b, employeeId)
    decreases |b|
  {
    if b == [] {
      assert a + b == a;
    } else {
      var b' := b[..|b| - 1];
      assert (a + b)[..|a + b| - 1] == a + b';
      assert (a + b)[|a + b| - 1] == b[|b| - 1];
      LeavesOfAppend(a, b', employeeId);
    }
  }

  /** The top of a stack kept as a sequence whose last element is the top. */
  function Top(stack: seq<Leave>): (r: Option<Leave>)
    ensures r.None? <==> stack == []
    ensures r.Some? ==> r.value == stack[|stack| - 1]
  {
    if stack == [] then None else Some(stack[|stack| - 1])
  }

  /** The position of the first occurrence of `x` in `s`, or -1. */
  function FirstIndex(s: seq<Leave>, x: Leave): (i: int)
    ensures -1 <= i < |s|
    ensures 0 <= i ==> s[i] == x && x !in s[..i]
    ensures i < 0 <==> x !in s
    decreases |s|
  {
    if s == [] then -1
    else if s[0] == x then 0
    else
      var k := FirstIndex(s[1..], x);
      assert k >= 0 ==> s[..k + 1] == [s[0]] + s[1..][..k];
      if k < 0 then -1 else k + 1
  }

  /** `List.remove(Object)`: the list without the first occurrence of `x` (identity), if any. */
  function RemoveFirst(s: seq<Leave>, x: Leave): (r: seq<Leave>)
    decreases |s|
  {
    if s == [] then []
    else if s[0] == x then s[1..]
    else [s[0]] + RemoveFirst(s[1..], x)
  }

  /**
    Removing an element drops exactly its first occurrence and keeps the
    order of the rest; removing an absent element changes nothing.
  */
  lemma {:induction false} RemoveFirstCutsFirstOccurrence(s: seq<Leave>, x: Leave)
    ensures var i := FirstIndex(s, x);
      RemoveFirst(s, x) == if i < 0 then s else s[..i] + s[i + 1..]
    decreases |s|
  {
    if s != [] && s[0] == x {
      assert FirstIndex(s, x) == 0;
      assert s[..0] + s[1..] == s[1..];
    } else if s != [] {
      var t := s[1..];
      assert s == [s[0]] + t;
      RemoveFirstCutsFirstOccurrence(t, x);
      var i := FirstIndex(t, x);
      assert RemoveFirst(s, x) == [s[0]] + RemoveFirst(t, x);
      if 0 <= i {
        assert FirstIndex(s, x) == i + 1;
        assert s[..i + 1] == [s[0]] + t[..i];
        assert s[i + 2..] == t[i + 1..];
        assert [s[0]] + (t[..i] + t[i + 1..]) == s[..i + 1] + s[i + 2..];
      } else {
        assert FirstIndex(s, x) == -1;
        assert RemoveFirst(s, x) == s;
      }
    }
  }

  /** Removing an element the list holds takes away exactly one of its occurrences. */
  lemma RemoveFirstMultiset(s: seq<Leave>, x: Leave)
    requires x in s
    ensures multiset(RemoveFirst(s, x)) == multiset(s) - multiset{x}
  {
    RemoveFirstCutsFirstOccurrence(s, x);
    MultisetOfCut(s, FirstIndex(s, x));
  }

  /** Cutting out one position takes one occurrence of its element out of the multiset. */
  lemma MultisetOfCut(s: seq<Leave>, i: int)
    requires 0 <= i < |s|
    ensures multiset(s[..i] + s[i + 1..]) == multiset(s) - multiset{s[i]}
  {
    var a, b := s[..i], s[i + 1..];
    assert s == a + [s[i]] + b;
    assert multiset(s) == multiset(a) + multiset{s[i]} + multiset(b);
  }

  /** Undoing the application of a leave the list did not already hold gives back the list. */
  lemma UndoAfterApply(s: seq<Leave>, x: Leave)
    requires x !in s
    ensures RemoveFirst(s + [x], x) == s
  {
    RemoveFirstCutsFirstOccurrence(s + [x], x);
    assert (s + [x])[..|s|] == s;
  }

  class LeaveService {
    /** `leaves`: every leave in application (or load) order. */
    var leaves: seq<Leave>
    /** `recentLeaves`: the undo stack, top last. */
    var recent: seq<Leave>

    /** The stack and the list hold the same objects, each as often. */
    ghost predicate Valid()
      reads this
    {
      multiset(recent) == multiset(leaves)
    }

    constructor ()
      ensures Valid() && leaves == [] && recent == []
    {
      leaves := [];
      recent := [];
    }

    /** `applyLeave`: no duplicate or overlap check; the leave goes to the end of the list and onto the stack. */
    method ApplyLeave(leave: Leave) returns (ok: bool)
      requires Valid()
      modifies this
      ensures Valid()
      ensures ok
      ensures leaves == old(leaves) + [leave] && recent == old(recent) + [leave]
      ensures Top(recent) == Some(leave)
    {
      leaves := leaves + [leave];
      recent := recent + [leave];
      return true;
    }

    /**
      The loop shared by `approveLeave` and `rejectLeave`: the first PENDING
      request of the employee starting on that date gets `status`. Objects
      that occur more than once in the list change at every occurrence; no
      leave that was not PENDING changes.
    */
    method SetFirstPending(employeeId: string, startDate: LocalDate, status: string) returns (found: bool)
      modifies leaves
      ensures var i := FirstPending(old(Records(leaves)), employeeId, startDate);
        && (found <==> 0 <= i)
        && forall j :: 0 <= j < |leaves| ==>
             leaves[j].Value() == if 0 <= i && leaves[j] == leaves[i] then old(leaves[j].Value()).(status := status)
                                  else old(leaves[j].Value())
      ensures forall j :: 0 <= j < |leaves| && old(leaves[j].status) != Pending ==> leaves[j].status == old(leaves[j].status)
    {
      ghost var before := Records(leaves);
      var k := 0;
      while k < |leaves|
        invariant 0 <= k <= |leaves|
        invariant forall j :: 0 <= j < k ==> !IsPendingMatch(before[j], employeeId, startDate)
      {
        var l := leaves[k];
        if l.employeeId == employeeId && l.startDate == startDate && l.status == Pending {
          assert IsPendingMatch(before[k], employeeId, startDate);
          assert FirstPending(before, employeeId, startDate) == k;
          l.SetStatus(status);
          return true;
        }
        k := k + 1;
      }
      assert FirstPending(before, employeeId, startDate) < 0;
      return false;
    }

    /** `approveLeave`. */
    method ApproveLeave(employeeId: string, startDate: LocalDate) returns (found: bool)
      modifies leaves
      ensures var i := FirstPending(old(Records(leaves)), employeeId, startDate);
        && (found <==> 0 <= i)
        && forall j :: 0 <= j < |leaves| ==>
             leaves[j].Value() == if 0 <= i && leaves[j] == leaves[i] then old(leaves[j].Value()).(status := Approved)
                                  else old(leaves[j].Value())
      ensures forall j :: 0 <= j < |leaves| && old(leaves[j].status) != Pending ==> leaves[j].status == old(leaves[j].status)
    {
      found := SetFirstPending(employeeId, startDate, Approved);
    }

    /** `rejectLeave`. */
    method RejectLeave(employeeId: string, startDate: LocalDate) returns (found: bool)
      modifies leaves
      ensures var i := FirstPending(old(Records(leaves)), employeeId, startDate);
        && (found <==> 0 <= i)
        && forall j :: 0 <= j < |leaves| ==>
             leaves[j].Value() == if 0 <= i && leaves[j] == leaves[i] then old(leaves[j].Value()).(status := Rejected)
                                  else old(leaves[j].Value())
      ensures forall j :: 0 <= j < |leaves| && old(leaves[j].status) != Pending ==> leaves[j].status == old(leaves[j].status)
    {
      found := SetFirstPending(employeeId, startDate, Rejected);
    }

    /** `getLeavesByEmployeeId`: a new list of the employee's leaves, in list order. */
    method GetLeavesByEmployeeId(employeeId: string) returns (r: seq<Leave>)
      ensures r == LeavesOf(leaves, employeeId)
    {
      r := [];
      for k := 0 to |leaves|
        invariant r == LeavesOf(leaves[..k], employeeId)
      {
        assert leaves[..k + 1][..k] == leaves[..k];
        if leaves[k].employeeId == employeeId {
          r := r + [leaves[k]];
        }
      }
      assert leaves[..|leaves|] == leaves;
    }

    /** `getMostRecentLeave`: the stack top, None for an empty stack; nothing changes. */
    method GetMostRecentLeave() returns (r: Option<Leave>)
      ensures r == Top(recent)
    {
      if recent == [] {
        return None;
      }
      return Some(recent[|recent| - 1]);
    }

    /**
      `undoRecentLeave`: pops the stack and removes the first occurrence of
      that same object from the list, whatever its status.
    */
    method UndoRecentLeave() returns (r: Option<Leave>)
      requires Valid()
      modifies this
      ensures Valid()
      ensures r == Top(old(recent))
      ensures r.None? ==> leaves == old(leaves) && recent == old(recent)
      ensures r.Some? ==> recent == old(recent)[..|old(recent)| - 1]
      ensures r.Some? ==> leaves == RemoveFirst(old(leaves), r.value) && |leaves| == |old(leaves)| - 1
    {
      if recent == [] {
        return None;
      }
      var leave := recent[|recent| - 1];
      assert recent == recent[..|recent| - 1] + [leave];
      recent := recent[..|recent| - 1];
      assert leave in multiset(leaves);
      RemoveFirstCutsFirstOccurrence(leaves, leave);
      RemoveFirstMultiset(leaves, leave);
      leaves := RemoveFirst(leaves, leave);
      return Some(leave);
    }

    /**
      The in-memory effect of `loadLeaves`: each stored leave becomes a new
      object, which is applied as `applyLeave` would.
    */
    method LoadLeaves(stored: seq<LeaveRecord>)
      requires Valid()
      modifies this
      ensures Valid()
      ensures |leaves| == |old(leaves)| + |stored| && leaves[..|old(leaves)|] == old(leaves)
      ensures forall j :: 0 <= j < |stored| ==> leaves[|old(leaves)| + j].Value() == stored[j]
      ensures recent == old(recent) + leaves[|old(leaves)|..]
      ensures forall j :: |old(leaves)| <= j < |leaves| ==> fresh(leaves[j])
    {
      ghost var added: seq<Leave> := [];
      for k := 0 to |stored|
        invariant Valid()
        invariant leaves == old(leaves) + added && recent == old(recent) + added
        invariant |added| == k && forall j :: 0 <= j < k ==> fresh(added[j])
        invariant forall j :: 0 <= j < k ==> added[j].Value() == stored[j]
      {
        var s := stored[k];
        var leave := new Leave.WithStatus(s.employeeId, s.startDate, s.endDate, s.leaveType, s.reason, s.status);
        var _ := ApplyLeave(leave);
        added := added + [leave];
      }
      assert leaves[..|old(leaves)|] == old(leaves) && leaves[|old(leaves)|..] == added;
    }
  }
}
