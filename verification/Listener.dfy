/** One socket for every charger: the listener that registers devices and routes datagrams to them
    (evsemaster/listener.py). Its indexes are those of the router, over device objects. */
module Listener {
  import opened Wrappers
  import opened ByteStrings
  import opened Packet
  import opened Protocol
  import opened Damage
  import opened Device
  import R = Router
  import S = Session
  import Rereads

  /** What the packets of a datagram come to: the indexes, the handler tasks queued and the discoveries reported. */
  datatype Routed<D(==)> = Routed(
    router: R.Router<D>,
    tasks: seq<(D, DataPacket)>,
    reports: seq<(string, R.Address)>)

  /** `_on_frame`, for a frame that can be read. */
  function Take<D>(l: Routed<D>, packet: DataPacket, from: R.Address): Routed<D>
  {
    Routed(
      R.Receive(l.router, packet.deviceSerial, from),
      match R.Received(l.router, packet.deviceSerial, from)
      case Handed(d) => l.tasks + [(d, packet)]
      case _ => l.tasks,
      match R.Received(l.router, packet.deviceSerial, from)
      case Reported(serial) => l.reports + [(serial, from)]
      case _ => l.reports)
  }

  function TakeAll<D>(l: Routed<D>, packets: seq<DataPacket>, from: R.Address): Routed<D>
    decreases |packets|
  {
    if |packets| == 0 then l else TakeAll(Take(l, packets[0], from), packets[1..], from)
  }

  /** The steps of the router a list of packets stands for. */
  function Receipts<D>(packets: seq<DataPacket>, from: R.Address): seq<R.Op<D>>
  {
    seq(|packets|, i requires 0 <= i < |packets| => R.ReceiveOp(packets[i].deviceSerial, from))
  }

  lemma {:induction false} RunFirst<D>(r: R.Router<D>, op: R.Op<D>, ops: seq<R.Op<D>>)
    ensures R.Run(r, [op] + ops) == R.Run(R.Step(r, op), ops)
  {
    var all := [op] + ops;
    if |ops| == 0 {
      assert all[..0] == [];
    } else {
      assert all[..|all| - 1] == [op] + ops[..|ops| - 1];
      RunFirst(r, op, ops[..|ops| - 1]);
    }
  }

  lemma FirstReceipt<D>(packets: seq<DataPacket>, from: R.Address)
    requires |packets| > 0
    ensures Receipts<D>(packets, from)
         == [R.ReceiveOp(packets[0].deviceSerial, from)] + Receipts<D>(packets[1..], from)
  {
  }

  /** A datagram is a run of the router's steps, so what holds of every run holds of every datagram. */
  lemma {:induction false} DatagramIsRun<D>(l: Routed<D>, packets: seq<DataPacket>, from: R.Address)
    ensures TakeAll(l, packets, from).router == R.Run(l.router, Receipts<D>(packets, from))
    decreases |packets|
  {
    if |packets| == 0 {
    } else {
      DatagramIsRun(Take(l, packets[0], from), packets[1..], from);
      FirstReceipt<D>(packets, from);
      RunFirst(l.router, R.ReceiveOp(packets[0].deviceSerial, from), Receipts<D>(packets[1..], from));
    }
  }

  datatype AddError = DeviceAlreadyRegistered(device: EvseDevice)

  /** The device was closed: no longer authorised, its automatic login cancelled, its re-read timers stopped. */
  twostate predicate Closed(d: EvseDevice)
    reads d
  {
    d.Session() == S.CloseDevice(old(d.Session())) && d.Settings() == Rereads.CancelAll(old(d.Settings()))
  }

  class EvseListener {
    const reportsDiscovery: bool
    var bySerial: map<string, EvseDevice>
    var byIp: map<string, EvseDevice>
    var discovered: set<string>
    var tasks: seq<(EvseDevice, DataPacket)>
    var reports: seq<(string, R.Address)>
    /** The devices added and not removed since, those of them another's removal cut, and all devices ever added. */
    ghost var registered: set<EvseDevice>
    ghost var cut: set<EvseDevice>
    ghost var known: set<EvseDevice>

    /** What every device ever added goes by. */
    ghost function Identities(): map<EvseDevice, R.Identity>
      reads this`known, known`serial, known`hostIp, known`sendPort
    {
      map d | d in known :: d.Identity()
    }

    ghost function View(): R.Router<EvseDevice>
      reads this`bySerial, this`byIp, this`discovered, this`registered, this`cut, this`known
      reads known`serial, known`hostIp, known`sendPort
    {
      R.Router(reportsDiscovery, bySerial, byIp, discovered, Identities(), registered, cut)
    }

    ghost function Whole(): Routed<EvseDevice>
      reads this
      reads known`serial, known`hostIp, known`sendPort
    {
      Routed(View(), tasks, reports)
    }

    ghost predicate InKnown()
      reads this`byIp, this`bySerial, this`known
    {
      byIp.Values <= known && bySerial.Values <= known
    }

    ghost predicate Valid()
      reads this
      reads known`serial, known`hostIp, known`sendPort
    {
      && InKnown() && R.Consistent(View())
      && (forall d :: d in known ==> d.Valid())
      && (forall i :: 0 <= i < |tasks| ==> tasks[i].0 in known)
    }

    constructor (reportsDiscovery: bool)
      ensures Valid() && Whole() == Routed(R.Empty(reportsDiscovery), [], [])
    {
      this.reportsDiscovery := reportsDiscovery;
      bySerial, byIp, discovered, tasks, reports := map[], map[], {}, [], [];
      registered, cut, known := {}, {}, {};
    }

    /** Registers a device at a resolved address. */
    method AddDevice(host: string, ip: string, password: string) returns (result: Result<EvseDevice, AddError>)
      requires Valid() && IsAscii(password)
      modifies this`byIp, this`registered, this`known
      ensures Valid()
      ensures match result
              case Ok(device) =>
                && ip !in old(byIp) && fresh(device) && device !in old(known)
                && View() == R.Add(old(View()), ip, device)
                && device.host == host && device.password == password
              case Err(error) =>
                ip in old(byIp) && error == DeviceAlreadyRegistered(old(byIp)[ip]) && View() == old(View())
    {
      if ip in byIp {
        return Err(DeviceAlreadyRegistered(byIp[ip]));
      }
      var device := new EvseDevice(host, ip, password);
      R.ConsistentStep(View(), R.AddOp(ip, device));
      Register(device, ip);
      return Ok(device);
    }

    method Register(device: EvseDevice, ip: string)
      requires ip !in byIp && device !in known && device.Identity() == R.Identity(None, ip, R.DEFAULT_SEND_PORT)
      modifies this`byIp, this`registered, this`known
      ensures known == old(known) + {device}
      ensures View() == R.Add(old(View()), ip, device)
    {
      ghost var before := Identities();
      byIp := byIp[ip := device];
      registered, known := registered + {device}, known + {device};
      assert Identities() == before[device := device.Identity()];
    }

    /** Unregisters a device, so its packets become discoveries again; it may have been unregistered before. */
    method RemoveDevice(device: EvseDevice)
      requires Valid() && device in known
      modifies this`byIp, this`bySerial, this`discovered, this`registered, this`cut
      modifies device`authenticated, device`loginTasks, device`timers
      ensures Valid() && View() == R.Remove(old(View()), device)
      ensures Closed(device)
    {
      ghost var before := View();
      R.ConsistentStep(before, R.RemoveOp(device));
      device.Close();
      assert View() == before;
      Unlist(device);
    }

    method Unlist(device: EvseDevice)
      requires device in known
      modifies this`byIp, this`bySerial, this`discovered, this`registered, this`cut
      ensures View() == R.Remove(old(View()), device)
    {
      ghost var before := View();
      assert R.IdentityOf(before, device) == device.Identity();
      byIp := byIp - {device.hostIp};
      if device.serial.Some? && device.serial.value != "" {
        bySerial := bySerial - {device.serial.value};
        discovered := discovered - {device.serial.value};
      }
      cut := (cut + R.SharesSerial(before, device)) - {device};
      registered := registered - {device};
    }

    /** Looks a registered device up by its serial. */
    function GetDevice(serial: string): Option<EvseDevice>
      reads this`bySerial
    {
      if serial in bySerial then Some(bySerial[serial]) else None
    }

    /** A lookup finds exactly the registered device that has the serial and was not cut. */
    lemma GetDeviceIsScan(serial: string)
      requires Valid() && serial != "" && serial != ZERO_SERIAL
      ensures forall d :: d in registered ==>
                (d.serial == Some(serial) && d !in cut <==> GetDevice(serial) == Some(d))
      ensures GetDevice(serial).Some? ==> GetDevice(serial).value in registered
    {
      forall d | d in registered
        ensures d.serial == R.SerialOf(View(), d)
      {
        assert d in View().identity;
      }
      forall d | d in registered
        ensures R.FoundUnlessCut(View(), d)
      {
      }
    }

    function Devices(): set<EvseDevice>
      reads this`byIp, this`bySerial
    {
      byIp.Values + bySerial.Values
    }

    /** Closes and drops all devices the indexes hold. */
    method Stop()
      requires Valid()
      modifies this`tasks, this`byIp, this`bySerial, this`discovered, this`registered, this`cut
      modifies Devices()`authenticated, Devices()`loginTasks, Devices()`timers
      ensures Valid() && View() == R.Stop(old(View())) && tasks == []
      ensures forall d :: d in old(Devices()) ==> Closed(d)
    {
      R.ConsistentStep(View(), R.StopOp);
      CloseListed();
      Clear();
    }

    method CloseListed()
      requires Valid()
      modifies Devices()`authenticated, Devices()`loginTasks, Devices()`timers
      ensures View() == old(View())
      ensures forall d :: d in Devices() ==> Closed(d)
    {
      CloseAll(Devices());
    }

    method Clear()
      modifies this`tasks, this`byIp, this`bySerial, this`discovered, this`registered, this`cut
      ensures View() == R.Stop(old(View())) && tasks == []
    {
      tasks, bySerial, byIp, discovered, registered, cut := [], map[], map[], {}, {}, {};
    }

    method CloseAll(devices: set<EvseDevice>)
      modifies devices`authenticated, devices`loginTasks, devices`timers
      ensures forall d :: d in devices ==> Closed(d)
    {
      var left := devices;
      while left != {}
        invariant left <= devices
        invariant forall d :: d in devices - left ==> Closed(d)
        invariant forall d :: d in left ==>
                    d.Session() == old(d.Session()) && d.Settings() == old(d.Settings())
        decreases |left|
      {
        var d :| d in left;
        d.Close();
        left := left - {d};
      }
    }

    /** The device a packet belongs to: by serial first, so a device that changed address is still found. */
    method Route(serial: string, ip: string) returns (device: Option<EvseDevice>)
      requires InKnown()
      ensures device == R.Route(View(), serial, ip)
      ensures device.Some? ==> device.value in known
    {
      if serial in bySerial {
        return Some(bySerial[serial]);
      }
      if ip !in byIp {
        return None;
      }
      var found := byIp[ip];
      assert R.SerialOf(View(), found) == found.serial;
      if found.serial.Some? && found.serial != Some(serial) {
        return None;
      }
      return Some(found);
    }

    method Reindex(device: EvseDevice, before: R.Identity)
      modifies this`bySerial, this`byIp
      ensures bySerial == R.ReindexSerial(old(bySerial), device, before, device.Identity())
      ensures byIp == R.ReindexIp(old(byIp), device, before, device.Identity())
    {
      if device.serial != before.serial {
        if before.serial.Some? && before.serial.value != "" {
          bySerial := bySerial - {before.serial.value};
        }
        if device.serial.Some? && device.serial.value != "" {
          bySerial := bySerial[device.serial.value := device];
        }
      }
      if device.hostIp != before.hostIp {
        if before.hostIp in byIp && byIp[before.hostIp] == device {
          byIp := byIp - {before.hostIp};
        }
        byIp := byIp[device.hostIp := device];
      }
    }

    /** Reports a charger nobody registered, once per serial. */
    method Discover(serial: string, from: R.Address)
      modifies this`discovered, this`reports
      ensures var found := reportsDiscovery && serial !in old(discovered) && serial != ZERO_SERIAL;
              && discovered == (if found then old(discovered) + {serial} else old(discovered))
              && reports == old(reports) + if found then [(serial, from)] else []
    {
      if !reportsDiscovery || serial in discovered || serial == ZERO_SERIAL {
        return;
      }
      discovered := discovered + {serial};
      reports := reports + [(serial, from)];
    }

    /** One frame; what cannot be read is ignored. */
    method OnFrame(data: bytes, from: R.Address)
      requires Valid()
      modifies this`bySerial, this`byIp, this`discovered, this`tasks, this`reports
      modifies known`serial, known`hostIp, known`sendPort
      ensures Valid()
      ensures Whole() == match Decode(data)
                         case Ok(packet) => Take(old(Whole()), packet, from)
                         case Err(_) => old(Whole())
    {
      var decoded := Decode(data);
      if decoded.Err? {
        return;
      }
      R.ConsistentStep(View(), R.ReceiveOp(decoded.value.deviceSerial, from));
      OnPacket(decoded.value, from);
    }

    method OnPacket(packet: DataPacket, from: R.Address)
      requires InKnown()
      modifies this`bySerial, this`byIp, this`discovered, this`tasks, this`reports
      modifies known`serial, known`hostIp, known`sendPort
      ensures Whole() == Take(old(Whole()), packet, from)
      ensures forall i :: 0 <= i < |tasks| ==> tasks[i] in old(tasks) || tasks[i].0 in known
    {
      ghost var before := View();
      var device := Route(packet.deviceSerial, from.ip);
      if device.None? {
        Discover(packet.deviceSerial, from);
        assert View() == R.Receive(before, packet.deviceSerial, from);
      } else {
        Adopt(device.value, packet.deviceSerial, from);
        tasks := tasks + [(device.value, packet)];
      }
    }

    /** A routed packet teaches the device its serial and address, and the indexes follow. */
    method Adopt(device: EvseDevice, serial: string, from: R.Address)
      requires device in known && R.Route(View(), serial, from.ip) == Some(device)
      modifies this`bySerial, this`byIp, device`serial, device`hostIp, device`sendPort
      ensures View() == R.Receive(old(View()), serial, from)
    {
      ghost var before := Identities();
      var identity := device.Identity();
      device.Bind(serial, from);
      assert Identities() == before[device := device.Identity()];
      Reindex(device, identity);
    }

    /** A datagram: its frames in order, those that cannot be read ignored. */
    method OnDatagram(data: bytes, from: R.Address)
      requires Valid()
      modifies this`bySerial, this`byIp, this`discovered, this`tasks, this`reports
      modifies known`serial, known`hostIp, known`sendPort
      ensures Valid()
      ensures Whole() == TakeAll(old(Whole()), Deliver(data), from)
    {
      var frames := SplitFrames(data);
      ghost var start := Whole();
      assert frames[0..] == frames;
      for i := 0 to |frames|
        invariant Valid() && known == old(known)
        invariant TakeAll(Whole(), DecodeAll(frames[i..]), from) == TakeAll(start, DecodeAll(frames), from)
      {
        assert frames[i..][0] == frames[i] && frames[i..][1..] == frames[i + 1..];
        OnFrame(frames[i], from);
      }
    }

    /** The oldest queued handler task runs. */
    method RunTask(now: int, offset: int)
      requires Valid() && |tasks| > 0
      modifies this`tasks, tasks[0].0
      ensures Valid() && View() == old(View()) && tasks == old(tasks)[1..]
      ensures var (device, packet) := old(tasks)[0];
              && device.View() == HandleCore(old(device.View()), packet, now, offset)
              && device.history == HistoryAfter(old(device.history), packet)
              && device.historyCount == CountAfter(old(device.historyCount), packet)
              && device.sent == old(device.sent) + device.OutgoingReply(packet)
              && device.Identity() == old(device.Identity()) && device.Settings() == old(device.Settings())
    {
      var (device, packet) := tasks[0];
      device.HandlePacket(packet, now, offset);
      tasks := tasks[1..];
    }
  }

  /** Removing a device leaves its queued handlers alone, and the oldest of them still answers. */
  method RemovedStillAnswers(l: EvseListener, now: int, offset: int)
    requires l.Valid() && |l.tasks| > 0 && Reply(l.tasks[0].1).Some?
    modifies l, l.tasks[0].0
    ensures var d := old(l.tasks[0].0); d !in l.registered && |d.sent| == |old(l.tasks[0].0.sent)| + 1
  {
    var device := l.tasks[0].0;
    l.RemoveDevice(device);
    l.RunTask(now, offset);
  }
}
