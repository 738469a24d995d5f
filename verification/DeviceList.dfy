/** The input reader's list of polled devices: what its lock protects, in memory and over every interleaving. */
module DeviceList {

  /** The sequence without one of its elements. */
  function Without<T(==)>(s: seq<T>, x: T): seq<T> {
    if s == [] then [] else if s[0] == x then s[1..] else [s[0]] + Without(s[1..], x)
  }

  predicate Distinct<T(==)>(s: seq<T>) {
    forall i, j :: 0 <= i < j < |s| ==> s[i] != s[j]
  }

  lemma {:induction false} WithoutAt<T>(s: seq<T>, i: nat)
    requires i < |s| && Distinct(s)
    ensures Without(s, s[i]) == s[..i] + s[i + 1..]
  {
    if i > 0 {
      assert s[1..][i - 1] == s[i];
      WithoutAt(s[1..], i - 1);
      assert s[1..][..i - 1] == s[1..i];
      assert s[1..][i..] == s[i + 1..];
      assert s[..i] == [s[0]] + s[1..i];
    }
  }

  /** Exactly that element goes, and no other. */
  lemma WithoutIs<T>(s: seq<T>, x: T)
    requires Distinct(s) && x in s
    ensures |Without(s, x)| == |s| - 1 && Distinct(Without(s, x))
    ensures forall y :: y in Without(s, x) <==> y in s && y != x
  {
    var i :| 0 <= i < |s| && s[i] == x;
    WithoutAt(s, i);
    var t := s[..i] + s[i + 1..];
    forall y
      ensures y in t <==> y in s && y != x
    {
      assert s == s[..i] + [x] + s[i + 1..];
    }
  }

  class DeviceEntry {
    var next: DeviceEntry?
    const name: string
    const fd: int

    constructor (name: string, fd: int, next: DeviceEntry?)
      ensures this.name == name && this.fd == fd && this.next == next
    {
      this.name, this.fd, this.next := name, fd, next;
    }
  }

  class PolledDevices {
    var head: DeviceEntry?
    ghost var entries: seq<DeviceEntry>

    ghost predicate Valid()
      reads this, entries
    {
      && head == NextOf(entries, -1)
      && Linked(entries)
      && Distinct(entries)
      && OneEach(entries)
    }

    constructor ()
      ensures Valid() && entries == []
    {
      head, entries := null, [];
    }

    /**
      Queues a device that is not polled yet.  Opening it, allocating the entry, its
      suitability and the start of its thread are up to the system.
     */
    method StartPoll(name: string, fd: int, hasMemory: bool, supported: bool, threadStarts: bool)
      returns (started: DeviceEntry?)
      requires Valid()
      modifies this
      ensures Valid()
      ensures started == null <==>
              (exists e :: e in old(entries) && e.name == name) || fd < 0 || !hasMemory || !supported || !threadStarts
      ensures started == null ==> entries == old(entries)
      ensures started != null ==>
              entries == [started] + old(entries) && fresh(started) && started.name == name && started.fd == fd
    {
      var currentEntry := head;
      ghost var k := 0;
      while currentEntry != null
        invariant k <= |entries| && currentEntry == NextOf(entries, k - 1)
        invariant forall i :: 0 <= i < k ==> entries[i].name != name
        decreases |entries| - k
      {
        if currentEntry.name == name {
          return null;
        }
        currentEntry := currentEntry.next;
        k := k + 1;
      }
      if fd < 0 || !hasMemory || !supported || !threadStarts {
        return null;
      }
      started := new DeviceEntry(name, fd, head);
      QueueLinks(entries, started);
      head, entries := started, [started] + entries;
    }

    /** Unlinks the entry of a thread that ends; the walk finds it wherever it is. */
    method Unlink(device: DeviceEntry)
      requires Valid() && device in entries
      modifies this, entries
      ensures Valid() && entries == Without(old(entries), device)
      ensures forall e :: e in old(entries) && e.next != old(e.next) ==> old(e.next) == device && e.next == device.next
    {
      if head == device {
        WithoutAt(entries, 0);
        head, entries := device.next, entries[1..];
      } else {
        var lastEntry, k := WalkTo(device);
        WithoutAt(entries, k + 1);
        Bypass(lastEntry, device, k);
      }
    }

    /** Leads a link past the next entry. */
    method Bypass(lastEntry: DeviceEntry, device: DeviceEntry, ghost k: nat)
      requires Valid() && k + 1 < |entries| && lastEntry == entries[k] && device == entries[k + 1]
      modifies this`entries, lastEntry`next
      ensures Valid() && entries == Cut(old(entries), k + 1)
      ensures lastEntry.next == device.next
    {
      ghost var rest := Cut(entries, k + 1);
      Bypassed(entries, k);
      lastEntry.next := device.next;
      assert forall i :: 0 <= i < |rest| ==> rest[i].next == NextOf(rest, i);
      entries := rest;
    }

    /** The entry whose link leads to a device that is in the list, but not at its head. */
    method WalkTo(device: DeviceEntry) returns (lastEntry: DeviceEntry, ghost k: nat)
      requires Valid() && device in entries && head != device
      ensures k + 1 < |entries| && lastEntry == entries[k] && lastEntry.next == device == entries[k + 1]
    {
      lastEntry, k := head, 0;
      while lastEntry.next != null
        invariant k < |entries| && lastEntry == entries[k]
        invariant forall i :: 0 <= i <= k ==> entries[i] != device
        decreases |entries| - k
      {
        if lastEntry.next == device {
          break;
        }
        lastEntry := lastEntry.next;
        k := k + 1;
      }
    }
  }

  /** What follows position `i` in a list, where -1 is the head. */
  function NextOf(s: seq<DeviceEntry>, i: int): DeviceEntry?
    requires -1 <= i
  {
    if i + 1 < |s| then s[i + 1] else null
  }

  ghost predicate Linked(s: seq<DeviceEntry>)
    reads s
  {
    forall i :: 0 <= i < |s| ==> s[i].next == NextOf(s, i)
  }

  /** No device is polled twice. */
  ghost predicate OneEach(s: seq<DeviceEntry>) {
    forall i, j :: 0 <= i < j < |s| ==> s[i].name != s[j].name
  }

  lemma QueueLinks(s: seq<DeviceEntry>, e: DeviceEntry)
    requires Linked(s) && e.next == NextOf(s, -1)
    ensures Linked([e] + s)
  {
    forall i | 0 <= i < |s| + 1
      ensures ([e] + s)[i].next == NextOf([e] + s, i)
    {
      if i > 0 {
        assert s[i - 1].next == NextOf(s, i - 1);
      }
    }
  }

  function Cut<T>(s: seq<T>, k: nat): (r: seq<T>)
    requires k < |s|
    ensures |r| == |s| - 1 && forall i :: 0 <= i < |r| ==> r[i] == if i < k then s[i] else s[i + 1]
  {
    s[..k] + s[k + 1..]
  }

  /** One redirected link takes one entry out. */
  lemma Bypassed(s: seq<DeviceEntry>, k: nat)
    requires k + 1 < |s| && Distinct(s) && OneEach(s)
    ensures forall i {:trigger NextOf(Cut(s, k + 1), i)} :: 0 <= i < |s| - 1 ==>
              NextOf(Cut(s, k + 1), i) == NextOf(s, if i < k then i else i + 1)
    ensures Distinct(Cut(s, k + 1)) && OneEach(Cut(s, k + 1))
  {
  }
}
