// The rotator's active list as the source keeps it: a list of objects updated in place. Every method
// refines one step of Rotation.dfy.
module ProxyRotator {
  import opened Options
  import opened Protocols
  import opened Rotation
  import opened Entities
  import opened TakeLaws

  ghost function Objects(list: seq<IpAddr>): set<IpAddr> {
    set x | x in list
  }

  function Snaps(list: seq<IpAddr>): (r: seq<Entry>)
    reads Objects(list)
    ensures |r| == |list|
    ensures forall i :: 0 <= i < |list| ==> r[i] == list[i].Snap()
  {
    seq(|list|, i requires 0 <= i < |list| reads Objects(list) => list[i].Snap())
  }

  // lodash `remove` with the negated predicate.
  function KeepObjects(list: seq<IpAddr>, p: Entry -> bool): (r: seq<IpAddr>)
    reads Objects(list)
    ensures forall x :: x in r ==> x in list && p(x.Snap())
    ensures forall x :: x in list ==> p(x.Snap()) ==> x in r
  {
    if list == [] then []
    else
      var rest := KeepObjects(list[1..], p);
      assert list == [list[0]] + list[1..];
      if p(list[0].Snap()) then [list[0]] + rest else rest
  }

  lemma {:induction false} SnapsKeep(list: seq<IpAddr>, p: Entry -> bool)
    ensures Snaps(KeepObjects(list, p)) == Keep(Snaps(list), p)
  {
    if list != [] {
      SnapsKeep(list[1..], p);
      assert Snaps(list)[1..] == Snaps(list[1..]);
    }
  }

  function InsertObject(x: IpAddr, list: seq<IpAddr>): (r: seq<IpAddr>)
    reads x, Objects(list)
    ensures forall y :: y in r ==> y == x || y in list
    ensures x in r && forall y :: y in list ==> y in r
  {
    if list == [] then [x]
    else if Le(x.Snap(), list[0].Snap()) then [x] + list
    else [list[0]] + InsertObject(x, list[1..])
  }

  // lodash `orderBy` with the active list's keys.
  function OrderObjects(list: seq<IpAddr>): (r: seq<IpAddr>)
    reads Objects(list)
    ensures forall y :: y in r ==> y in list
    ensures forall y :: y in list ==> y in r
  {
    if list == [] then []
    else
      var rest := OrderObjects(list[1..]);
      assert list == [list[0]] + list[1..];
      InsertObject(list[0], rest)
  }

  lemma {:induction false} SnapsInsert(x: IpAddr, list: seq<IpAddr>)
    ensures Snaps(InsertObject(x, list)) == Insert(x.Snap(), Snaps(list))
  {
    if list == [] {
      assert Snaps([x]) == [x.Snap()];
    } else {
      SnapsCons(x, list);
      SnapsCons(list[0], list[1..]);
      SnapsCons(list[0], InsertObject(x, list[1..]));
      assert [list[0]] + list[1..] == list;
      SnapsInsert(x, list[1..]);
    }
  }

  lemma SnapsCons(x: IpAddr, list: seq<IpAddr>)
    ensures Snaps([x] + list) == [x.Snap()] + Snaps(list)
  {
  }

  lemma {:induction false} SnapsOrder(list: seq<IpAddr>)
    ensures Snaps(OrderObjects(list)) == Sort(Snaps(list))
  {
    if list != [] {
      SnapsOrder(list[1..]);
      SnapsInsert(list[0], OrderObjects(list[1..]));
      assert Snaps(list)[1..] == Snaps(list[1..]);
    }
  }

  class ProxyRotator {
    const reuse: nat
    var activeList: seq<IpAddr>
    var nextId: nat
    // What the takes so far handed out.
    ghost var trace: seq<Option<nat>>

    ghost function View(): State
      reads this, Objects(activeList)
    {
      State(Snaps(activeList), trace, nextId)
    }

    // The object identities are told apart by `id`, and the invariant behind the cool-down holds.
    ghost predicate Valid()
      reads this, Objects(activeList)
    {
      && Identified(View())
      && (reuse >= 1 ==> Inv(View(), reuse))
    }

    constructor (reuse: nat)
      ensures this.reuse == reuse && View() == EMPTY && Valid()
    {
      this.reuse := reuse;
      activeList, trace, nextId := [], [], 0;
    }

    lemma DistinctObjects()
      requires Unique(Snaps(activeList))
      ensures forall i, j :: 0 <= i < j < |activeList| ==> activeList[i] != activeList[j]
      ensures forall x, y :: x in activeList && y in activeList && x.id == y.id ==> x == y
    {
      forall i, j | 0 <= i < j < |activeList|
        ensures activeList[i] != activeList[j] && activeList[i].id != activeList[j].id
      {
        assert View().list[i].id != View().list[j].id;
      }
      forall x, y | x in activeList && y in activeList && x.id == y.id ensures x == y {
        var i :| 0 <= i < |activeList| && activeList[i] == x;
        var j :| 0 <= j < |activeList| && activeList[j] == y;
        assert !(i < j) && !(j < i);
      }
    }

    method CleanupList()
      modifies this`activeList
      ensures Snaps(activeList) == Cleanup(old(Snaps(activeList)))
      ensures forall x :: x in activeList <==> x in old(activeList) && !(x.used > 99 && x.success * 100 <= 15 * x.used)
    {
      SnapsKeep(activeList, Useful());
      activeList := KeepObjects(activeList, Useful());
    }

    method OrderActiveList()
      modifies this`activeList
      ensures Snaps(activeList) == Sort(old(Snaps(activeList)))
      ensures forall x :: x in activeList <==> x in old(activeList)
    {
      SnapsOrder(activeList);
      activeList := OrderObjects(activeList);
    }

    // The loop of `updateList` over the list.
    method TickObjects()
      requires Unique(Snaps(activeList))
      modifies Objects(activeList)
      ensures Snaps(activeList) == Tick(old(Snaps(activeList)), reuse)
      ensures forall x :: x in activeList ==> x.id == old(x.id) && x.used == old(x.used)
    {
      DistinctObjects();
      for i := 0 to |activeList|
        invariant forall k :: 0 <= k < i ==> activeList[k].Snap() == TickEntry(old(activeList[k].Snap()), reuse)
        invariant forall k :: i <= k < |activeList| ==> activeList[k].Snap() == old(activeList[k].Snap())
      {
        var addr := activeList[i];
        if Cooling(addr.odd, reuse) && addr.used > 0 {
          addr.odd := addr.odd + 1;
        } else {
          addr.odd := 0;
        }
      }
      forall x | x in activeList ensures x.id == old(x.id) && x.used == old(x.used) {
        var k :| 0 <= k < |activeList| && activeList[k] == x;
        assert x.Snap() == TickEntry(old(x.Snap()), reuse);
      }
    }

    method UpdateList()
      requires Unique(Snaps(activeList))
      modifies this`activeList, Objects(activeList)
      ensures Snaps(activeList) == Rotation.UpdateList(old(Snaps(activeList)), reuse)
      ensures forall x :: x in activeList ==> x in old(activeList)
      ensures Unique(Snaps(activeList))
      ensures forall x :: x in old(activeList) ==> x.id == old(x.id) && x.used == old(x.used)
    {
      UpdateListUnique(Snaps(activeList), reuse);
      KeepUnique(Snaps(activeList), Useful());
      CleanupList();
      TickObjects();
      OrderActiveList();
    }

    method UseAddr(addr: IpAddr, now: int)
      modifies addr
      ensures addr.Snap() == UseEntry(old(addr.Snap()), old(addr.id), now)
    {
      addr.odd := 1;
      addr.used := addr.used + 1;
      addr.updatedAt := now;
    }

    lemma KeepsValid(before: State, ev: Event)
      requires Identified(before) && (reuse >= 1 ==> Inv(before, reuse))
      requires View() == Step(before, ev, reuse)
      ensures Valid()
    {
      StepIdentified(before, ev, reuse);
      if reuse >= 1 {
        StepKeepsInv(before, ev, reuse);
      }
    }

    method FindEligible(now: int, sel: Selector) returns (i: nat)
      ensures i == FirstEligible(View().list, now, sel)
    {
      i := 0;
      while i < |activeList|
        invariant i <= |activeList|
        invariant forall j :: 0 <= j < i ==> !Eligible(View().list[j], now, sel)
      {
        if Eligible(activeList[i].Snap(), now, sel) {
          assert Eligible(View().list[i], now, sel);
          break;
        }
        i := i + 1;
      }
    }

    // The part of `take` before its first await. A null result is a miss.
    method Take(now: int, sel: Selector) returns (addr: IpAddr?)
      requires Valid()
      modifies this, Objects(activeList)
      ensures Valid()
      ensures View() == Step(old(View()), Event.Take(now, sel), reuse)
      ensures addr != null <==> Choice(old(View()), now, sel).Some?
      ensures addr != null ==> addr in old(activeList) && old(addr.id) == Choice(old(View()), now, sel).value
      ensures addr != null ==> addr.odd == 1 && addr.used == old(addr.used) + 1 && addr.updatedAt == now
      ensures addr != null ==>
        && old(addr.odd) == 0 && now - old(addr.updatedAt) >= 2000
        && (sel.level == 0 || addr.state.level <= sel.level)
        && (sel.speedLimit == 0 || addr.state.duration <= sel.speedLimit)
        && (sel.targetSSL <==> addr.state.dest == Https)
      ensures addr == null <==> forall x :: x in old(activeList) ==>
        || old(x.odd) != 0 || now - old(x.updatedAt) < 2000
        || (sel.level != 0 && x.state.level > sel.level)
        || (sel.speedLimit != 0 && x.state.duration > sel.speedLimit)
        || (sel.targetSSL <==> x.state.dest == Http)
    {
      ghost var before := View();
      HitLaw(now, sel);
      addr := TakeListed(now, sel);
      KeepsValid(before, Event.Take(now, sel));
    }

    lemma HitLaw(now: int, sel: Selector)
      requires Identified(View())
      ensures forall x :: x in activeList && Choice(View(), now, sel) == Some(x.id) ==>
        && x.odd == 0 && now - x.updatedAt >= 2000
        && (sel.level == 0 || x.state.level <= sel.level)
        && (sel.speedLimit == 0 || x.state.duration <= sel.speedLimit)
        && (sel.targetSSL <==> x.state.dest == Https)
      ensures Choice(View(), now, sel).None? <==> forall x :: x in activeList ==>
        || x.odd != 0 || now - x.updatedAt < 2000
        || (sel.level != 0 && x.state.level > sel.level)
        || (sel.speedLimit != 0 && x.state.duration > sel.speedLimit)
        || (sel.targetSSL <==> x.state.dest == Http)
    {
      var list := View().list;
      TakeLaw(View(), now, sel);
      DistinctObjects();
      forall e | e in list ensures exists x :: x in activeList && e == x.Snap() {
        var i :| 0 <= i < |list| && list[i] == e;
        assert activeList[i] in activeList;
      }
      forall x | x in activeList ensures x.Snap() in list {
        var i :| 0 <= i < |activeList| && activeList[i] == x;
        assert list[i] == x.Snap();
      }
    }

    method TakeListed(now: int, sel: Selector) returns (addr: IpAddr?)
      requires Identified(View())
      modifies this, Objects(activeList)
      ensures View() == TakeStep(old(View()), now, sel, reuse)
      ensures addr != null <==> Choice(old(View()), now, sel).Some?
      ensures addr != null ==> addr in old(activeList) && old(addr.id) == Choice(old(View()), now, sel).value
      ensures addr != null ==> addr.odd == 1 && addr.used == old(addr.used) + 1 && addr.updatedAt == now
    {
      ghost var before := View();
      ghost var chosen := Choice(before, now, sel);
      var i := FindEligible(now, sel);
      if i == |activeList| {
        addr := null;
        Advance(chosen);
      } else {
        addr := activeList[i];
        OnlyOne(addr);
        Advance(chosen);
        // The object may just have been dropped by the cleanup; it is updated all the same.
        UseListed(addr, now);
      }
    }

    // `updateList`, noting in the trace what the running take chose before it.
    method Advance(ghost chosen: Option<nat>)
      requires Unique(Snaps(activeList))
      modifies this`activeList, this`trace, Objects(activeList)
      ensures View() == old(View()).(list := Rotation.UpdateList(old(View().list), reuse),
                                     trace := old(trace) + [chosen])
      ensures forall x :: x in activeList ==> x in old(activeList)
      ensures forall x :: x in old(activeList) ==> x.id == old(x.id) && x.used == old(x.used)
    {
      UpdateList();
      trace := trace + [chosen];
    }

    lemma OnlyOne(addr: IpAddr)
      requires Unique(Snaps(activeList)) && addr in activeList
      ensures forall x :: x in activeList && x.id == addr.id ==> x == addr
    {
      DistinctObjects();
    }

    method UseListed(addr: IpAddr, now: int)
      requires forall x :: x in activeList && x.id == addr.id ==> x == addr
      modifies addr
      ensures View() == old(View()).(list := Use(old(View().list), old(addr.id), now))
      ensures addr.odd == 1 && addr.used == old(addr.used) + 1 && addr.updatedAt == now && addr.id == old(addr.id)
    {
      UseAddr(addr, now);
      assert Snaps(activeList) == Use(old(Snaps(activeList)), old(addr.id), now);
    }

    method FindActiveEntry(ip: string, port: int, dest: Protocol) returns (entry: IpAddr?)
      ensures entry != null <==> HasAddress(View().list, ip, port, dest)
      ensures entry != null ==> entry in activeList && SameAddress(entry.Snap(), ip, port, dest)
      ensures entry == null <==> forall x :: x in activeList ==> x.ip != ip || x.port != port || x.state.dest != dest
    {
      entry := null;
      for i := 0 to |activeList|
        invariant forall k :: 0 <= k < i ==> !SameAddress(View().list[k], ip, port, dest)
      {
        var x := activeList[i];
        if x.ip == ip && x.port == port && x.state.dest == dest {
          assert View().list[i] in View().list;
          return x;
        }
      }
    }

    // The end of a successful test request in `do`: the tested address joins the list unless it is
    // there already. `rotate` holds successes, errors and inc of its rating record.
    method Admit(workLoad: IpAddr, rotate: Option<(nat, nat, nat)>, now: int)
      requires Valid()
      requires workLoad !in activeList && workLoad.odd == 0
      modifies this, workLoad
      ensures Valid()
      ensures var (successes, errors, inc) := if rotate.Some? then rotate.value else (0, 0, 0);
        var c := Candidate(workLoad.ip, workLoad.port, workLoad.state.dest, workLoad.state.level,
                           workLoad.state.duration, successes, errors, inc, old(workLoad.durationAvg));
        View() == Step(old(View()), Event.Admit(c, now), reuse)
      ensures (exists x :: x in old(activeList)
                && x.ip == workLoad.ip && x.port == workLoad.port && x.state.dest == workLoad.state.dest)
        ==> activeList == old(activeList)
      ensures (forall x :: x in old(activeList) ==>
                x.ip != workLoad.ip || x.port != workLoad.port || x.state.dest != workLoad.state.dest)
        ==> && activeList == old(activeList) + [workLoad]
            && (workLoad.success, workLoad.errors, workLoad.used) == (if rotate.Some? then rotate.value else (0, 0, 0))
            && workLoad.odd == 0 && workLoad.updatedAt == now && workLoad.durationAvg == old(workLoad.durationAvg)
    {
      ghost var before := View();
      var entry := FindActiveEntry(workLoad.ip, workLoad.port, workLoad.state.dest);
      var (successes, errors, inc) := if rotate.Some? then rotate.value else (0, 0, 0);
      ghost var c := Candidate(workLoad.ip, workLoad.port, workLoad.state.dest, workLoad.state.level,
                               workLoad.state.duration, successes, errors, inc, workLoad.durationAvg);
      if entry == null {
        List(workLoad, successes, errors, inc, now);
      }
      KeepsValid(before, Event.Admit(c, now));
    }

    method List(workLoad: IpAddr, successes: nat, errors: nat, inc: nat, now: int)
      requires workLoad !in activeList && workLoad.odd == 0
      modifies this`activeList, this`nextId, workLoad
      ensures activeList == old(activeList) + [workLoad] && nextId == old(nextId) + 1
      ensures workLoad.success == successes && workLoad.errors == errors && workLoad.used == inc
      ensures workLoad.odd == 0 && workLoad.updatedAt == now && workLoad.durationAvg == old(workLoad.durationAvg)
      ensures Snaps(activeList) == old(Snaps(activeList)) +
        [Admitted(Candidate(workLoad.ip, workLoad.port, workLoad.state.dest, workLoad.state.level,
                            workLoad.state.duration, successes, errors, inc, workLoad.durationAvg), old(nextId), now)]
    {
      workLoad.success := successes;
      workLoad.errors := errors;
      workLoad.used := inc;
      workLoad.updatedAt := now;
      workLoad.id := nextId;
      nextId := nextId + 1;
      activeList := activeList + [workLoad];
    }

    // The end of a log call, for the object that was listed when the call began; by now it may be gone.
    method FinishLog(addr: IpAddr, remove: bool, success: bool, avg: int)
      requires Valid()
      requires forall x :: x in activeList && x.id == addr.id ==> x == addr
      modifies this, addr
      ensures Valid()
      ensures View() == Step(old(View()), LogDone(old(addr.id), remove, success, avg), reuse)
      ensures !remove ==> activeList == old(activeList)
      ensures remove ==> forall x :: x in activeList <==> x in old(activeList) && x != addr
      ensures addr.success == old(addr.success) + if !remove && success then 1 else 0
      ensures addr.errors == old(addr.errors) + if !remove && !success then 1 else 0
      ensures addr.durationAvg == if !remove && success then avg else old(addr.durationAvg)
      ensures addr.odd == old(addr.odd) && addr.used == old(addr.used) && addr.updatedAt == old(addr.updatedAt)
    {
      ghost var before := View();
      if remove {
        SnapsKeep(activeList, OtherThan(addr.id));
        activeList := KeepObjects(activeList, OtherThan(addr.id));
      } else {
        CreditAddr(addr, success, avg);
      }
      KeepsValid(before, LogDone(addr.id, remove, success, avg));
    }

    method CreditAddr(addr: IpAddr, success: bool, avg: int)
      requires forall x :: x in activeList && x.id == addr.id ==> x == addr
      modifies addr
      ensures addr.id == old(addr.id)
      ensures Snaps(activeList) == Credit(old(Snaps(activeList)), addr.id, success, avg)
      ensures addr.success == old(addr.success) + if success then 1 else 0
      ensures addr.errors == old(addr.errors) + if success then 0 else 1
      ensures addr.durationAvg == if success then avg else old(addr.durationAvg)
      ensures addr.odd == old(addr.odd) && addr.used == old(addr.used) && addr.updatedAt == old(addr.updatedAt)
    {
      if success {
        addr.success := addr.success + 1;
        addr.durationAvg := avg;
      } else {
        addr.errors := addr.errors + 1;
      }
    }

    method RemoveUnusedProxies(now: int, timeOffset: int)
      requires Valid()
      modifies this
      ensures Valid()
      ensures View() == Step(old(View()), Expired(now, timeOffset), reuse)
      ensures forall x :: x in activeList <==> x in old(activeList) && now - x.updatedAt <= timeOffset * 1000
    {
      ghost var before := View();
      RemoveOld(now, timeOffset);
      KeepsValid(before, Expired(now, timeOffset));
    }

    method RemoveOld(now: int, timeOffset: int)
      modifies this`activeList
      ensures Snaps(activeList) == Keep(old(Snaps(activeList)), Fresh(now, timeOffset))
      ensures forall x :: x in activeList <==> x in old(activeList) && now - x.updatedAt <= timeOffset * 1000
    {
      SnapsKeep(activeList, Fresh(now, timeOffset));
      activeList := KeepObjects(activeList, Fresh(now, timeOffset));
    }

    method OnEmpty()
      requires Valid()
      modifies this
      ensures Valid()
      ensures View() == Step(old(View()), QueueEmpty, reuse)
      ensures forall x :: x in activeList <==> x in old(activeList) && !(x.used > 99 && x.success * 100 <= 15 * x.used)
    {
      ghost var before := View();
      CleanupList();
      OrderActiveList();
      KeepsValid(before, QueueEmpty);
    }
  }
}
