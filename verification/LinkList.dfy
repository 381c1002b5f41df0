/** The singly linked list of include/link_list.h over the entries of the client-WDS proxy table.
    A list owns no memory: its nodes come from a pool and move between lists. */
module LinkList {

  import opened Octets

  /** CLIWDS_PROXY_ENTRY. */
  class ProxyEntry {
    var next: ProxyEntry?
    var lastRefTime: nat
    var aid: int
    var addr: Mac

    /** An entry of the zeroed pool. */
    constructor ()
      ensures next == null && lastRefTime == 0 && aid == 0 && addr == ZERO_MAC
    {
      next, lastRefTime, aid, addr := null, 0, 0, ZERO_MAC;
    }
  }

  /** LIST_HEADER. The ghost field lists the nodes in order; `size` is an unsigned char. */
  class EntryList {
    var head: ProxyEntry?
    var tail: ProxyEntry?
    var size: nat
    ghost var nodes: seq<ProxyEntry>

    ghost predicate Valid()
      reads this, nodes
    {
      && size == |nodes| < 256
      && (nodes == [] ==> head == null && tail == null)
      && (nodes != [] ==> head == nodes[0] && tail == nodes[|nodes| - 1])
      && (forall i {:trigger nodes[i].next} | 0 <= i < |nodes| :: nodes[i].next == if i + 1 < |nodes| then nodes[i + 1] else null)
      && (forall i, j | 0 <= i < j < |nodes| :: nodes[i] != nodes[j])
    }

    ghost function Nodes(): (s: set<ProxyEntry>)
      reads this
    {
      set n | n in nodes
    }

    /** initList. */
    constructor ()
      ensures Valid() && nodes == []
    {
      head, tail, size, nodes := null, null, 0, [];
    }

    /** insertTailList. */
    method InsertTail(entry: ProxyEntry)
      requires Valid() && entry !in nodes && |nodes| < 255
      modifies this, entry`next, Nodes()`next
      ensures Valid() && nodes == old(nodes) + [entry]
    {
      entry.next := null;
      if tail != null {
        tail.next := entry;
      } else {
        head := entry;
      }
      tail := entry;
      size := (size + 1) % 256;
      nodes := nodes + [entry];
    }

    /** removeHeadList. */
    method RemoveHead() returns (entry: ProxyEntry?)
      requires Valid()
      modifies this
      ensures Valid()
      ensures old(nodes) == [] ==> entry == null && nodes == []
      ensures old(nodes) != [] ==> entry == old(nodes)[0] && nodes == old(nodes)[1..]
    {
      entry := head;
      if head != null {
        assert head == nodes[0];
        var after := head.next;
        head := after;
        if after == null {
          tail := null;
        }
        size := (size + 255) % 256;
        nodes := nodes[1..];
      }
    }

    /** delEntryList: unlinks `entry`, wherever it stands; a list without it stays as it is. */
    method Delete(entry: ProxyEntry) returns (found: ProxyEntry?)
      requires Valid()
      modifies this, Nodes()`next
      ensures Valid()
      ensures entry !in old(nodes) ==> found == null && nodes == old(nodes)
      ensures forall k | 0 <= k < |old(nodes)| && old(nodes)[k] == entry ::
                found == entry && nodes == old(nodes)[..k] + old(nodes)[k + 1..]
      ensures entry.next == old(entry.next)
    {
      if head == null {
        return null;
      }
      assert head == nodes[0];
      if entry == head {
        found := head;
        head := found.next;
        if head == null {
          tail := null;
        }
        size := (size + 255) % 256;
        nodes := nodes[1..];
        return;
      }
      var prev := head;
      found := prev.next;
      ghost var k := 1;
      while found != null
        invariant 1 <= k <= |nodes| && nodes == old(nodes) && Valid()
        invariant prev == nodes[k - 1]
        invariant found == if k < |nodes| then nodes[k] else null
        invariant entry !in nodes[..k]
        invariant forall n: ProxyEntry | n in nodes :: n.next == old(n.next)
        invariant entry.next == old(entry.next)
        decreases |nodes| - k
      {
        assert prev == nodes[k - 1] && found == nodes[k];
        if entry == found {
          prev.next := found.next;
          if entry == tail {
            tail := prev;
          }
          size := (size + 255) % 256;
          nodes := nodes[..k] + nodes[k + 1..];
          break;
        }
        prev := found;
        found := prev.next;
        k := k + 1;
      }
    }
  }
}
