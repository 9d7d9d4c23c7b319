/** The dispatcher's driver table: who a command goes to, whose reply is printed. */
module TaxiDispatcher {
  import opened TaxiDriver

  const MAX_DRIVERS := 100

  datatype DriverInfo = DriverInfo(pid: int, reqFd: int, rspFd: int)

  /** A request written to a FIFO, an outcome printed for a pid. */
  datatype Write = Write(fd: int, request: Request)
  datatype Line = Line(pid: int, outcome: Outcome)

  /** Open drivers have distinct pids and distinct descriptors. */
  ghost predicate Distinct(t: seq<DriverInfo>) {
    forall i, j :: 0 <= i < j < |t| ==> t[i].pid != t[j].pid && t[i].reqFd != t[j].reqFd && t[i].rspFd != t[j].rspFd
  }

  /** One status request for every driver of a table, in table order. */
  function StatusRequests(t: seq<DriverInfo>): (w: seq<Write>)
    ensures |w| == |t| && forall i :: 0 <= i < |t| ==> w[i] == Write(t[i].reqFd, StatusRequest)
  {
    seq(|t|, i requires 0 <= i < |t| => Write(t[i].reqFd, StatusRequest))
  }

  class Dispatcher {
    const drivers: array<DriverInfo>
    var numDrivers: nat
    var written: seq<Write>
    var printed: seq<Line>

    ghost predicate Valid()
      reads this, drivers
    {
      drivers.Length == MAX_DRIVERS && numDrivers <= MAX_DRIVERS && Distinct(drivers[..numDrivers])
    }

    constructor ()
      ensures Valid() && fresh(drivers) && numDrivers == 0 && written == [] && printed == []
    {
      drivers := new DriverInfo[MAX_DRIVERS](_ => DriverInfo(0, 0, 0));
      numDrivers, written, printed := 0, [], [];
    }

    /** A freshly forked process and freshly opened descriptors, unless the table is full. */
    method HandleCreateDriver(d: DriverInfo)
      requires Valid() && Distinct(drivers[..numDrivers] + [d])
      modifies `numDrivers, drivers
      ensures Valid()
      ensures drivers[..numDrivers] == old(drivers[..numDrivers]) + if old(numDrivers) < MAX_DRIVERS then [d] else []
    {
      if numDrivers >= MAX_DRIVERS { return; }
      ghost var t := drivers[..numDrivers];
      drivers[numDrivers] := d;
      numDrivers := numDrivers + 1;
      assert drivers[..numDrivers] == t + [d];
    }

    method FindDriver(pid: int) returns (r: int)
      requires Valid()
      ensures -1 <= r < numDrivers
      ensures r >= 0 ==> drivers[r].pid == pid
      ensures r < 0 ==> forall i :: 0 <= i < numDrivers ==> drivers[i].pid != pid
    {
      for i := 0 to numDrivers
        invariant forall j :: 0 <= j < i ==> drivers[j].pid != pid
      {
        if drivers[i].pid == pid { return i; }
      }
      return -1;
    }

    /** One request to the one driver with that pid, none if there is no such driver. */
    method SendTo(pid: int, request: Request)
      requires Valid()
      modifies `written
      ensures Valid()
      ensures forall i :: 0 <= i < numDrivers && drivers[i].pid == pid ==>
              written == old(written) + [Write(drivers[i].reqFd, request)]
      ensures (forall i :: 0 <= i < numDrivers ==> drivers[i].pid != pid) ==> written == old(written)
    {
      var i := FindDriver(pid);
      if i >= 0 { written := written + [Write(drivers[i].reqFd, request)]; }
    }

    /** A status request to every driver, in table order. */
    method HandleGetDrivers()
      requires Valid()
      modifies `written
      ensures Valid() && written == old(written) + StatusRequests(drivers[..numDrivers])
    {
      ghost var all := StatusRequests(drivers[..numDrivers]);
      for i := 0 to numDrivers
        invariant written == old(written) + all[..i]
      {
        assert all[..i + 1] == all[..i] + [all[i]];
        written := written + [Write(drivers[i].reqFd, StatusRequest)];
      }
    }

    /** A reply read from a FIFO is printed under the pid of the one driver that owns the FIFO. */
    method ProcessDriverMessage(fd: int, reply: Reply)
      requires Valid() && exists i :: 0 <= i < numDrivers && drivers[i].rspFd == fd
      modifies `printed
      ensures Valid()
      ensures forall i :: 0 <= i < numDrivers && drivers[i].rspFd == fd ==>
                printed == old(printed) + [Line(drivers[i].pid, Printed(reply))]
    {
      var pid := -1;
      ghost var t := drivers[..numDrivers];
      for i := 0 to numDrivers
        invariant forall j :: 0 <= j < i && t[j].rspFd == fd ==> pid == t[j].pid
      {
        if drivers[i].rspFd == fd { pid := drivers[i].pid; }
      }
      printed := printed + [Line(pid, Printed(reply))];
    }
  }
}
