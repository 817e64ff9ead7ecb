/** The poll loop of the test tool: three tables grown side by side by `address-watch`, and the dispatch of
    ready descriptors to the manager of the same row. */
module PollTables {
  import opened Libnl
  import opened Watch
  import opened Options
  import opened Enumeration

  /** What row `i` is told when its manager handles these events: its own subscriber hears each once. */
  function RowTold(i: nat, events: seq<Event>): seq<Delivery> {
    seq(|events|, k requires 0 <= k < |events| => Delivery(i, events[k]))
  }

  /** Event `p.minor` of row `p.major`, told to the row's own subscriber if the row is among the first `n`
      and its descriptor is ready. */
  function RowEvent(ready: seq<bool>, pending: seq<seq<Event>>, n: nat, p: Pair): Option<Delivery> {
    if 0 <= p.major < n && p.major < |pending| && p.major + 1 < |ready| && ready[p.major + 1]
       && 0 <= p.minor < |pending[p.major]|
    then Some(Delivery(p.major, pending[p.major][p.minor])) else None
  }

  function RowEvents(ready: seq<bool>, pending: seq<seq<Event>>, n: nat): Pair -> Option<Delivery> {
    (p: Pair) => RowEvent(ready, pending, n, p)
  }

  function OneRow(i: nat, events: seq<Event>): Pair -> Option<Delivery> {
    (p: Pair) =>
      if p.major == i && 0 <= p.minor < |events| then Some(Delivery(i, events[p.minor])) else None
  }

  lemma RowListed(i: nat, events: seq<Event>)
    ensures Lists(RowTold(i, events), Earlier, OneRow(i, events))
  {
    var at := seq(|events|, k => Pair(i, k));
    forall p | OneRow(i, events)(p).Some?
      ensures p in at
    {
      assert at[p.minor] == p;
    }
    assert Enumerates(RowTold(i, events), at, Earlier, OneRow(i, events));
  }

  /** Row `n - 1` after the rows before it. */
  lemma RowAdded(told: seq<Delivery>, ready: seq<bool>, pending: seq<seq<Event>>, n: nat)
    requires 0 < n < |ready| && n <= |pending| && Lists(told, Earlier, RowEvents(ready, pending, n - 1))
    ensures ready[n] ==> Lists(told + RowTold(n - 1, pending[n - 1]), Earlier, RowEvents(ready, pending, n))
    ensures !ready[n] ==> Lists(told, Earlier, RowEvents(ready, pending, n))
  {
    if ready[n] {
      RowListed(n - 1, pending[n - 1]);
      ListsBoth(told, RowTold(n - 1, pending[n - 1]), Earlier, RowEvents(ready, pending, n - 1),
                OneRow(n - 1, pending[n - 1]), RowEvents(ready, pending, n));
    } else {
      ListsSame(told, Earlier, RowEvents(ready, pending, n - 1), RowEvents(ready, pending, n));
    }
  }

  class Tool {
    const process: Process
    var pollFds: seq<int>
    var managers: seq<RouteCacheManager>
    var caches: seq<RouteAddressCache>
    /** The descriptor each manager reported. */
    ghost var fds: seq<int>

    /** The three tables agree row by row; each cache kept in its table owns the list its manager calls
        through, and that list names the row's own subscriber. */
    ghost predicate Aligned()
      reads this, process, managers, caches
    {
      && |managers| == |caches| == |fds| && pollFds == [0] + fds
      && !process.memory.fault && 0 < process.memory.next
      && (forall p :: p in process.memory.vectors ==> 0 < p < process.memory.next)
      && (forall i :: 0 <= i < |managers| ==> RowIsSound(i))
    }

    ghost predicate RowIsSound(i: nat)
      requires i < |managers| && i < |caches|
      reads this, process, managers, caches
    {
      && managers[i].process == process && caches[i].process == process
      && caches[i].callbacks == managers[i].registered
      && managers[i].registered in process.memory.vectors
      && process.memory.vectors[managers[i].registered] == [i]
    }

    constructor ()
      ensures Aligned() && managers == [] && process.log == [] && fresh(process)
    {
      process := new Process();
      pollFds, managers, caches, fds := [0], [], [], [];
    }

    /** `address-watch`.  An exception from `addressCache` leaves the tables as they were. */
    method AddressWatch(fd: int, ok: bool) returns (thrown: bool)
      requires Aligned()
      modifies this, process
      ensures Aligned() && process.log == old(process.log) && (thrown <==> !ok)
      ensures fds == if thrown then old(fds) else old(fds) + [fd]
      ensures old(managers) <= managers && old(caches) <= caches
    {
      ghost var before := process.memory;
      var mngr := new RouteCacheManager(process);
      var temporary := mngr.AddressCache(ok);
      if temporary == null {
        assert process.memory.vectors == before.vectors;
        forall i | 0 <= i < |managers|
          ensures RowIsSound(i)
        {
          assert old(RowIsSound(i));
        }
        return true;
      }
      var cache := new RouteAddressCache.Move(temporary);
      temporary.Destroy();
      assert process.memory.vectors == before.vectors[before.next := []];
      var row := |managers|;
      cache.Watch(row);
      assert process.memory.vectors[before.next] == [row];
      pollFds, fds := pollFds + [fd], fds + [fd];
      managers := managers + [mngr];
      caches := caches + [cache];
      forall i | 0 <= i < |managers|
        ensures RowIsSound(i)
      {
        assert i < row ==> old(RowIsSound(i));
      }
      thrown := false;
    }

    /** `managers[i - 1]->dataReady()` with the events libnl finds. */
    method DataReady(i: nat, events: seq<Event>)
      requires Aligned() && i < |managers|
      modifies process
      ensures process.memory == old(process.memory)
      ensures process.log == old(process.log) + RowTold(i, events)
    {
      var k := 0;
      while k < |events|
        invariant 0 <= k <= |events| && process.memory == old(process.memory)
        invariant process.log == old(process.log) + RowTold(i, events[..k])
      {
        assert old(RowIsSound(i));
        managers[i].OnEvent(events[k]);
        assert Deliveries([i], events[k]) == [Delivery(i, events[k])];
        assert RowTold(i, events[..k + 1]) == RowTold(i, events[..k]) + [Delivery(i, events[k])];
        k := k + 1;
      }
      assert events[..k] == events;
    }

    /** One round of the loop after `poll`: every ready row, and no other, hears all its events once, and
        no list is ever read after its cache died. */
    method Dispatch(ready: seq<bool>, pending: seq<seq<Event>>)
      requires Aligned() && |ready| == |pollFds| && |pending| == |managers|
      modifies process
      ensures Aligned() && process.memory == old(process.memory)
      ensures old(process.log) <= process.log
      ensures Lists(process.log[|old(process.log)|..], Earlier, RowEvents(ready, pending, |managers|))
    {
      var i := 1;
      ghost var told := [];
      ListsNothing(Earlier, RowEvents(ready, pending, 0));
      while i < |pollFds|
        invariant 1 <= i <= |pollFds| && Aligned() && process.memory == old(process.memory)
        invariant process.log == old(process.log) + told
        invariant Lists(told, Earlier, RowEvents(ready, pending, i - 1))
      {
        RowAdded(told, ready, pending, i);
        if ready[i] {
          DataReady(i - 1, pending[i - 1]);
          told := told + RowTold(i - 1, pending[i - 1]);
          forall j | 0 <= j < |managers|
            ensures RowIsSound(j)
          {
            assert old(RowIsSound(j));
          }
        }
        i := i + 1;
      }
      assert process.log[|old(process.log)|..] == told;
    }
  }
}
