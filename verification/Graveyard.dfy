/** The deferred destruction queue (src/platform/Graveyard.h). */
module Graveyards {

  /** An object that owns a terminal; objects have identity only. */
  type Obj = nat

  datatype Entry = Entry(stamp: nat, obj: Obj)

  /** A frame has completed since the entry was staged, and no parse runs on it. */
  predicate Ripe(e: Entry, completed: nat, busy: set<Obj>) {
    completed > e.stamp && e.obj !in busy
  }

  /** What a sweep leaves in the queue, in order. */
  function Kept(s: seq<Entry>, completed: nat, busy: set<Obj>): (r: seq<Entry>)
    ensures |r| <= |s|
  {
    if s == [] then []
    else Kept(s[..|s| - 1], completed, busy) + if Ripe(s[|s| - 1], completed, busy) then [] else [s[|s| - 1]]
  }

  /** The objects a sweep frees, in order. */
  function Swept(s: seq<Entry>, completed: nat, busy: set<Obj>): (r: seq<Obj>)
    ensures |r| <= |s|
  {
    if s == [] then []
    else Swept(s[..|s| - 1], completed, busy) + if Ripe(s[|s| - 1], completed, busy) then [s[|s| - 1].obj] else []
  }

  /** A sweep frees exactly the ripe entries and keeps exactly the others. */
  lemma {:induction false} SweepSplits(s: seq<Entry>, completed: nat, busy: set<Obj>)
    ensures forall e :: e in Kept(s, completed, busy) <==> e in s && !Ripe(e, completed, busy)
    ensures forall x :: x in Swept(s, completed, busy) <==> exists e :: e in s && Ripe(e, completed, busy) && e.obj == x
    ensures |Kept(s, completed, busy)| + |Swept(s, completed, busy)| == |s|
  {
    if s != [] {
      var t, last := s[..|s| - 1], s[|s| - 1];
      SweepSplits(t, completed, busy);
      assert s == t + [last];
      forall e ensures e in s <==> e in t || e == last {
      }
      forall x | x in Swept(s, completed, busy) ensures exists e :: e in s && Ripe(e, completed, busy) && e.obj == x {
        if x in Swept(t, completed, busy) {
          var e :| e in t && Ripe(e, completed, busy) && e.obj == x;
          assert e in s;
        } else {
          assert last in s;
        }
      }
    }
  }

  /** A sweep keeps the order, of what it leaves and of what it frees. */
  lemma {:induction false} SweepInOrder(s: seq<Entry>, t: seq<Entry>, completed: nat, busy: set<Obj>)
    ensures Kept(s + t, completed, busy) == Kept(s, completed, busy) + Kept(t, completed, busy)
    ensures Swept(s + t, completed, busy) == Swept(s, completed, busy) + Swept(t, completed, busy)
  {
    hide Kept, Swept, Ripe;
    if t == [] {
      assert s + t == s;
      NothingToSweep(completed, busy);
    } else {
      var front, last := t[..|t| - 1], t[|t| - 1];
      SweepInOrder(s, front, completed, busy);
      assert s + t == (s + front) + [last];
      assert t == front + [last];
      OneLonger(s + front, last, completed, busy);
      OneLonger(front, last, completed, busy);
    }
  }

  lemma OneLonger(s: seq<Entry>, e: Entry, completed: nat, busy: set<Obj>)
    ensures Kept(s + [e], completed, busy) == Kept(s, completed, busy) + if Ripe(e, completed, busy) then [] else [e]
    ensures Swept(s + [e], completed, busy) == Swept(s, completed, busy) + if Ripe(e, completed, busy) then [e.obj] else []
  {
    hide Ripe;
    assert (s + [e])[..|s|] == s;
  }

  lemma NothingToSweep(completed: nat, busy: set<Obj>)
    ensures Kept([], completed, busy) == [] && Swept([], completed, busy) == []
  {
  }

  lemma OneMore(s: seq<Entry>, i: nat, completed: nat, busy: set<Obj>)
    requires i < |s|
    ensures Kept(s[..i + 1], completed, busy) == Kept(s[..i], completed, busy) + if Ripe(s[i], completed, busy) then [] else [s[i]]
    ensures Swept(s[..i + 1], completed, busy) == Swept(s[..i], completed, busy) + if Ripe(s[i], completed, busy) then [s[i].obj] else []
  {
    assert s[..i + 1][..i] == s[..i];
  }

  function Objects(s: seq<Entry>): (r: seq<Obj>)
    ensures |r| == |s| && forall i :: 0 <= i < |s| ==> r[i] == s[i].obj
  {
    seq(|s|, i requires 0 <= i < |s| => s[i].obj)
  }

  class Graveyard {
    var entries: seq<Entry>

    constructor ()
      ensures entries == []
    {
      entries := [];
    }

    /** Take over an object; a null pointer is ignored. */
    method Defer(obj: Obj, isNull: bool, stamp: nat)
      modifies this
      ensures entries == if isNull then old(entries) else old(entries) + [Entry(stamp, obj)]
    {
      if isNull { return; }
      entries := entries + [Entry(stamp, obj)];
    }

    /** Remove the ripe entries in place and report what was freed. */
    method Sweep(completed: nat, busy: set<Obj>) returns (freed: seq<Obj>)
      modifies this
      ensures entries == Kept(old(entries), completed, busy)
      ensures freed == Swept(old(entries), completed, busy)
    {
      hide Kept, Swept;
      var was := entries;
      assert Kept([], completed, busy) == [] && Swept([], completed, busy) == [] by { NothingToSweep(completed, busy); }
      freed := [];
      var kept := 0;
      for i := 0 to |was|
        invariant kept <= i && |entries| == |was| && forall j :: i <= j < |was| ==> entries[j] == was[j]
        invariant entries[..kept] == Kept(was[..i], completed, busy)
        invariant freed == Swept(was[..i], completed, busy)
      {
        OneMore(was, i, completed, busy);
        var e := entries[i];
        if completed <= e.stamp || e.obj in busy {
          ghost var front := entries[..kept];
          entries := entries[kept := e];
          kept := kept + 1;
          assert entries[..kept] == front + [e];
        } else {
          freed := freed + [e.obj];
        }
      }
      assert was[..|was|] == was;
      entries := entries[..kept];
    }

    method DrainAll() returns (freed: seq<Obj>)
      modifies this
      ensures entries == [] && freed == Objects(old(entries))
    {
      freed := Objects(entries);
      entries := [];
    }
  }
}
