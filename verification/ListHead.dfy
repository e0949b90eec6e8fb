/** diskm/list.h: the intrusive circular doubly linked list, over real nodes. */
module ListHead {

  class Node {
    var next: Node?
    var prev: Node?

    /** INIT_LIST_HEAD. */
    constructor ()
      ensures IsRing(this, [])
    {
      next, prev := this, this;
    }
  }

  /** The node at place `i` of the circle: the head at both ends, the entries between. */
  function At(head: Node, s: seq<Node>, i: nat): Node
    requires i <= |s| + 1
  {
    if i == 0 || i == |s| + 1 then head else s[i - 1]
  }

  /** The entries of the list are `s`, in order: next and prev are each other's inverses around the
      circle, and no node occurs twice. */
  ghost predicate IsRing(head: Node, s: seq<Node>)
    reads head, s
  {
    && head !in s
    && (forall i, j :: 0 <= i < j < |s| ==> s[i] != s[j])
    && (forall i :: 0 <= i <= |s| ==> At(head, s, i).next == At(head, s, i + 1))
    && (forall i :: 0 <= i <= |s| ==> At(head, s, i + 1).prev == At(head, s, i))
  }

  /** The nodes determine the sequence: a head has one list. */
  lemma {:induction false} RingUnique(head: Node, s: seq<Node>, t: seq<Node>, k: nat)
    requires IsRing(head, s) && IsRing(head, t)
    requires k <= |s| && k <= |t| && s[..k] == t[..k]
    ensures s == t
    decreases |s| - k
  {
    assert At(head, s, k) == At(head, t, k) by {
      if k > 0 {
        assert s[k - 1] == s[..k][k - 1] == t[..k][k - 1] == t[k - 1];
      }
    }
    assert At(head, s, k + 1) == At(head, s, k).next == At(head, t, k + 1);
    if k < |s| && k < |t| {
      assert s[..k + 1] == s[..k] + [s[k]] && t[..k + 1] == t[..k] + [t[k]];
      RingUnique(head, s, t, k + 1);
    } else {
      assert s == s[..k] && t == t[..k];
    }
  }

  /** Where the places of a list go when an entry is put in at `k`. */
  lemma InsertedPlaces(head: Node, s: seq<Node>, k: nat, entry: Node)
    requires k <= |s|
    ensures var t := s[..k] + [entry] + s[k..];
            && (forall i :: 0 <= i <= k ==> At(head, t, i) == At(head, s, i))
            && At(head, t, k + 1) == entry
            && (forall i :: k + 1 < i <= |t| + 1 ==> At(head, t, i) == At(head, s, i - 1))
  {
  }

  /** __list_add between the entries at places `k` and `k` + 1. */
  method InsertBetween(entry: Node, prev: Node, next: Node, ghost head: Node, ghost s: seq<Node>, ghost k: nat)
    requires IsRing(head, s) && entry != head && entry !in s
    requires k <= |s| && prev == At(head, s, k) && next == At(head, s, k + 1)
    modifies entry, prev, next
    ensures IsRing(head, s[..k] + [entry] + s[k..])
  {
    InsertedPlaces(head, s, k, entry);
    next.prev := entry;
    entry.next := next;
    entry.prev := prev;
    prev.next := entry;
  }

  /** list_add: `entry` becomes the first entry. */
  method ListAdd(entry: Node, head: Node, ghost s: seq<Node>)
    requires IsRing(head, s) && entry != head && entry !in s
    modifies entry, head, s
    ensures IsRing(head, [entry] + s)
  {
    assert At(head, s, 0).next == At(head, s, 1);
    assert s[..0] + [entry] + s[0..] == [entry] + s;
    InsertBetween(entry, head, head.next, head, s, 0);
  }

  /** list_add_tail: `entry` becomes the last entry. */
  method ListAddTail(entry: Node, head: Node, ghost s: seq<Node>)
    requires IsRing(head, s) && entry != head && entry !in s
    modifies entry, head, s
    ensures IsRing(head, s + [entry])
  {
    assert At(head, s, |s| + 1).prev == At(head, s, |s|);
    assert s[..|s|] + [entry] + s[|s|..] == s + [entry];
    InsertBetween(entry, head.prev, head, head, s, |s|);
  }

  lemma RemovedPlaces(head: Node, s: seq<Node>, k: nat)
    requires k < |s|
    ensures var t := s[..k] + s[k + 1..];
            && (forall i :: 0 <= i <= k ==> At(head, t, i) == At(head, s, i))
            && (forall i :: k < i <= |t| + 1 ==> At(head, t, i) == At(head, s, i + 1))
  {
  }

  /** list_del of the entry at index `k`. */
  method ListDel(entry: Node, ghost head: Node, ghost s: seq<Node>, ghost k: nat)
    requires IsRing(head, s) && k < |s| && s[k] == entry
    modifies head, s
    ensures IsRing(head, s[..k] + s[k + 1..])
    ensures entry.next == null && entry.prev == null
  {
    RemovedPlaces(head, s, k);
    assert entry == At(head, s, k + 1);
    assert entry.prev == At(head, s, k) && entry.next == At(head, s, k + 2);
    var prev, next := entry.prev, entry.next;
    next.prev := prev;
    prev.next := next;
    entry.next := null;
    entry.prev := null;
  }

  lemma SplicedPlaces(list: Node, head: Node, s: seq<Node>, t: seq<Node>)
    ensures && (forall i :: 0 < i <= |s| ==> At(head, s + t, i) == At(list, s, i))
            && (forall i :: |s| < i <= |s| + |t| + 1 ==> At(head, s + t, i) == At(head, t, i - |s|))
            && At(head, s + t, 0) == head
  {
  }

  lemma SplicedDistinct(list: Node, head: Node, s: seq<Node>, t: seq<Node>)
    requires IsRing(list, s) && IsRing(head, t) && forall x :: x in s ==> x !in t
    ensures forall i, j :: 0 <= i < j < |s + t| ==> (s + t)[i] != (s + t)[j]
  {
    forall i, j | 0 <= i < j < |s + t|
      ensures (s + t)[i] != (s + t)[j]
    {
      if i < |s| <= j {
        assert (s + t)[i] in s && (s + t)[j] in t;
      }
    }
  }

  /** list_splice: the entries of `list` come before those of `head`; `list` itself is left as it was,
      which no longer makes it a list of its own if it had entries. */
  method ListSplice(list: Node, head: Node, ghost s: seq<Node>, ghost t: seq<Node>)
    requires IsRing(list, s) && IsRing(head, t) && list != head
    requires list !in t && head !in s && forall x :: x in s ==> x !in t
    modifies head, s, t
    ensures IsRing(head, s + t)
    ensures list.next == old(list.next) && list.prev == old(list.prev)
  {
    SplicedPlaces(list, head, s, t);
    SplicedDistinct(list, head, s, t);
    assert At(list, s, 0).next == At(list, s, 1) && At(list, s, |s| + 1).prev == At(list, s, |s|);
    if list.next != list {
      var first, last := list.next, list.prev;
      assert At(head, t, 0).next == At(head, t, 1);
      var at := head.next;
      first.prev := head;
      head.next := first;
      last.next := at;
      at.prev := last;
    } else {
      assert s == [] && s + t == t;
    }
  }

  /** list_splice_init: the same, and `list` is left empty. */
  method ListSpliceInit(list: Node, head: Node, ghost s: seq<Node>, ghost t: seq<Node>)
    requires IsRing(list, s) && IsRing(head, t) && list != head
    requires list !in t && head !in s && forall x :: x in s ==> x !in t
    modifies list, head, s, t
    ensures IsRing(head, s + t) && IsRing(list, [])
  {
    assert At(list, s, 0).next == At(list, s, 1);
    if list.next != list {
      ListSplice(list, head, s, t);
      list.next, list.prev := list, list;
    } else {
      assert s == [] && s + t == t;
    }
  }

  /** The entries of `s` that are not doomed. */
  function Kept(s: seq<Node>, doomed: set<Node>): (r: seq<Node>)
    ensures forall i :: 0 <= i < |r| ==> r[i] in s && r[i] !in doomed
    decreases |s|
  {
    if s == [] then [] else (if s[0] in doomed then [] else [s[0]]) + Kept(s[1..], doomed)
  }

  lemma {:induction false} KeptMore(s: seq<Node>, x: Node, doomed: set<Node>)
    ensures Kept(s + [x], doomed) == Kept(s, doomed) + if x in doomed then [] else [x]
    decreases |s|
  {
    if s == [] {
      assert s + [x] == [x] && [x][1..] == [];
    } else {
      assert (s + [x])[1..] == s[1..] + [x];
      KeptMore(s[1..], x, doomed);
    }
  }

  /** The list after `i` turns. */
  function Left(s: seq<Node>, i: nat, doomed: set<Node>): (r: seq<Node>)
    requires i <= |s|
    ensures forall k :: 0 <= k < |r| ==> r[k] in s
  {
    Kept(s[..i], doomed) + s[i..]
  }

  lemma LeftEnds(head: Node, s: seq<Node>, doomed: set<Node>)
    ensures Left(s, 0, doomed) == s && Left(s, |s|, doomed) == Kept(s, doomed)
    ensures At(head, s, 0) == head && At(head, s, 1) == if |s| > 0 then s[0] else head
  {
    assert s[..|s|] == s;
  }

  /** One turn: the current entry, the one after it, and the list once the current one is dealt with. */
  lemma Advance(head: Node, s: seq<Node>, i: nat, doomed: set<Node>)
    requires i < |s|
    ensures var now, k := Left(s, i, doomed), |Kept(s[..i], doomed)|;
            var after := Left(s, i + 1, doomed);
            && k < |now| && now[k] == s[i] == At(head, now, k + 1)
            && At(head, now, k + 2) == (if i + 1 < |s| then s[i + 1] else head)
            && (if s[i] in doomed then now[..k] + now[k + 1..] == after else now == after)
  {
    hide Kept;
    assert s[..i + 1] == s[..i] + [s[i]];
    KeptMore(s[..i], s[i], doomed);
    assert s[i..] == [s[i]] + s[i + 1..];
  }

  /** list_for_each_entry_safe with a body that deletes the current entry if it is doomed: every original
      entry is visited, once and in order, and the entries that stay are left in order. */
  method ForEachSafe(head: Node, ghost s: seq<Node>, doomed: set<Node>) returns (visited: seq<Node>)
    requires IsRing(head, s)
    modifies head, s
    ensures visited == s && IsRing(head, Kept(s, doomed))
  {
    hide IsRing, Kept, Left, At;
    visited := [];
    LeftEnds(head, s, doomed);
    RingNext(head, s, 0);
    var pos := head.next;
    ghost var i := 0;
    RingHead(head, s);
    while pos != head
      invariant 0 <= i <= |s| && visited == s[..i]
      invariant IsRing(head, Left(s, i, doomed))
      invariant pos == if i < |s| then s[i] else head
      decreases |s| - i
    {
      ghost var now, k := Left(s, i, doomed), |Kept(s[..i], doomed)|;
      Advance(head, s, i, doomed);
      RingNext(head, now, k + 1);
      var n := pos.next;
      visited := visited + [pos];
      if pos in doomed {
        ListDel(pos, head, now, k);
      }
      pos := n;
      i := i + 1;
    }
    NotHead(head, s, i);
  }

  lemma RingNext(head: Node, s: seq<Node>, k: nat)
    requires IsRing(head, s) && k <= |s|
    ensures At(head, s, k).next == At(head, s, k + 1)
  {
  }

  lemma NotHead(head: Node, s: seq<Node>, i: nat)
    requires head !in s
    ensures i < |s| ==> s[i] != head
  {
  }

  lemma RingHead(head: Node, s: seq<Node>)
    requires IsRing(head, s)
    ensures head !in s
  {
  }

  /** The safe iterator with a body that unlinks and frees every entry: each is freed once, in order, and the
      list is left empty. */
  method FreeAll(head: Node, ghost s: seq<Node>) returns (freed: seq<Node>)
    requires IsRing(head, s)
    modifies head, s
    ensures freed == s && IsRing(head, [])
  {
    hide IsRing, At;
    freed := [];
    AtEnds(head, s);
    RingNext(head, s, 0);
    RingHead(head, s);
    var pos := head.next;
    ghost var i := 0;
    assert s[0..] == s;
    while pos != head
      invariant 0 <= i <= |s| && freed == s[..i]
      invariant IsRing(head, s[i..])
      invariant pos == if i < |s| then s[i] else head
      decreases |s| - i
    {
      FreeTurn(head, s, i);
      RingNext(head, s[i..], 1);
      var n := pos.next;
      freed := freed + [pos];
      ListDel(pos, head, s[i..], 0);
      pos := n;
      i := i + 1;
    }
    NotHead(head, s, i);
    assert s[i..] == [];
  }

  lemma AtEnds(head: Node, s: seq<Node>)
    ensures At(head, s, 0) == head && At(head, s, 1) == if |s| > 0 then s[0] else head
  {
  }

  /** The first of the entries left, the one behind it, and what is left after it. */
  lemma FreeTurn(head: Node, s: seq<Node>, i: nat)
    requires i < |s|
    ensures var now := s[i..];
            && now[0] == s[i] == At(head, now, 1) && now[..0] + now[1..] == s[i + 1..]
            && At(head, now, 2) == (if i + 1 < |s| then s[i + 1] else head)
            && s[..i] + [s[i]] == s[..i + 1]
  {
  }

  lemma AllPlaced(head: Node, s: seq<Node>)
    ensures forall i :: 0 <= i <= |s| + 1 ==> At(head, s, i) == head || At(head, s, i) in s
  {
  }

  /** The node work of a removal: the partitions of a disk are unlinked and freed one after the other, then
      the disk itself. The other disks stay linked in their order, and nothing else is written. */
  method UnlinkDisk(list: Node, disk: Node, partlist: Node, ghost s: seq<Node>, ghost k: nat, ghost parts: seq<Node>)
    returns (freed: seq<Node>)
    requires IsRing(list, s) && k < |s| && s[k] == disk
    requires IsRing(partlist, parts) && partlist != list && partlist !in s && list !in parts
    requires forall p :: p in parts ==> p !in s
    modifies list, s, partlist, parts
    ensures freed == parts + [disk] && IsRing(partlist, []) && IsRing(list, s[..k] + s[k + 1..])
  {
    hide At;
    AllPlaced(list, s);
    forall x | x in s || x == list
      ensures x !in parts && x != partlist
    {
    }
    freed := FreeAll(partlist, parts);
    assert forall x :: x in s || x == list ==> x.next == old(x.next) && x.prev == old(x.prev);
    ListDel(disk, list, s, k);
    freed := freed + [disk];
  }
}
