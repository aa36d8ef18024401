// A log call: the rating record, the block decision and the active list together.
module RotatorLog {
  import opened Entities
  import opened Ledger
  import Rotation
  import Rotators = ProxyRotator

  // `doLog` once its database work is done. `addr` is the object that was listed when the call began,
  // `ipRotate` the rating record of the address and its source protocol, or null when the database
  // failed or does not know the address; then nothing happens.
  method DoLog(rotator: Rotators.ProxyRotator, addr: IpAddr?, ipRotate: IpRotate?, u: Use)
    returns (blocked: bool, toDelete: bool)
    requires rotator.Valid()
    requires addr != null ==> forall x :: x in rotator.activeList && x.id == addr.id ==> x == addr
    modifies rotator, if addr == null then {} else {addr}, if ipRotate == null then {} else {ipRotate}
    ensures rotator.Valid()
    ensures ipRotate != null ==> ipRotate.View() == LogStep(old(ipRotate.View()), u)
    ensures blocked <==> ipRotate != null && ipRotate.inc > 100 && ipRotate.successes * 100 < 15 * ipRotate.inc
    ensures toDelete <==> ipRotate != null && ipRotate.inc > 100 && ipRotate.successes == 0
    ensures addr == null || ipRotate == null ==> rotator.View() == old(rotator.View())
    ensures addr != null && ipRotate != null ==> rotator.View() == Rotation.Step(old(rotator.View()),
      Rotation.LogDone(old(addr.id), blocked, u.success, ipRotate.durationAverage), rotator.reuse)
    ensures addr != null && ipRotate != null && blocked ==>
      && (forall x :: x in rotator.activeList <==> x in old(rotator.activeList) && x != addr)
      && addr.success == old(addr.success) && addr.errors == old(addr.errors)
    ensures addr != null && ipRotate != null && !blocked ==>
      && rotator.activeList == old(rotator.activeList)
      && addr.success == old(addr.success) + (if u.success then 1 else 0)
      && addr.errors == old(addr.errors) + (if u.success then 0 else 1)
      && addr.durationAvg == if u.success then ipRotate.durationAverage else old(addr.durationAvg)
  {
    blocked, toDelete := false, false;
    if ipRotate != null {
      ipRotate.DoLog(u);
      assert rotator.View() == old(rotator.View());
      if ipRotate.inc > 100 {
        if ipRotate.successes * 100 < 15 * ipRotate.inc {
          blocked := true;
          if ipRotate.successes == 0 {
            toDelete := true;
          }
        }
      }
      if addr != null {
        rotator.FinishLog(addr, blocked, u.success, ipRotate.durationAverage);
      }
    }
  }
}
