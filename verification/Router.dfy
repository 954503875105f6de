/** Which device a frame belongs to: the two indexes of the listener, as values (evsemaster/listener.py).

    D stands for device objects; `identity` holds the fields of every device ever made, `registered` the
    devices added and not removed since, and `cut` those of them whose serial another device's removal dropped. */
module Router {
  import opened Wrappers
  import opened Protocol

  datatype Address = Address(ip: string, port: int)

  datatype Identity = Identity(serial: Option<string>, hostIp: string, sendPort: int)

  const DEFAULT_SEND_PORT := 7248

  datatype Router<D(==)> = Router(
    reports: bool,
    bySerial: map<string, D>,
    byIp: map<string, D>,
    discovered: set<string>,
    identity: map<D, Identity>,
    registered: set<D>,
    cut: set<D>)

  function Empty<D>(reports: bool): Router<D>
  {
    Router(reports, map[], map[], {}, map[], {}, {})
  }

  /** What became of a frame. */
  datatype Outcome<D> = Handed(device: D) | Reported(serial: string) | Ignored

  predicate NamesDevice(serial: string)
  {
    serial != "" && serial != ZERO_SERIAL
  }

  function IdentityOf<D>(r: Router<D>, d: D): Identity
  {
    if d in r.identity then r.identity[d] else Identity(None, "", DEFAULT_SEND_PORT)
  }

  function SerialOf<D>(r: Router<D>, d: D): Option<string>
  {
    IdentityOf(r, d).serial
  }

  /** `_route`: serial first, then the address, unless another charger answers there now. */
  function Route<D>(r: Router<D>, serial: string, ip: string): Option<D>
  {
    if serial in r.bySerial then Some(r.bySerial[serial])
    else if ip !in r.byIp then None
    else
      var device := r.byIp[ip];
      var known := SerialOf(r, device);
      if known.Some? && known != Some(serial) then None else Some(device)
  }

  /** `_bind`: the serial and the source address a frame teaches. */
  function Bind(id: Identity, serial: string, address: Address): Identity
  {
    Identity(if NamesDevice(serial) then Some(serial) else id.serial, address.ip, address.port)
  }

  /** The `_by_serial` part of `_reindex`. */
  function ReindexSerial<D>(bySerial: map<string, D>, d: D, before: Identity, after: Identity): map<string, D>
  {
    if after.serial == before.serial then bySerial
    else
      var dropped := if before.serial.Some? && before.serial.value != "" then bySerial - {before.serial.value}
                     else bySerial;
      if after.serial.Some? && after.serial.value != "" then dropped[after.serial.value := d] else dropped
  }

  /** The `_by_ip` part of `_reindex`. */
  function ReindexIp<D(==)>(byIp: map<string, D>, d: D, before: Identity, after: Identity): map<string, D>
  {
    if after.hostIp == before.hostIp then byIp
    else
      var dropped := if before.hostIp in byIp && byIp[before.hostIp] == d then byIp - {before.hostIp} else byIp;
      dropped[after.hostIp := d]
  }

  /** Whether `_discover` reports a serial. */
  predicate Discovers<D>(r: Router<D>, serial: string)
  {
    r.reports && serial !in r.discovered && serial != ZERO_SERIAL
  }

  /** `_on_frame`, for a frame that can be read. */
  function Receive<D>(r: Router<D>, serial: string, address: Address): Router<D>
  {
    match Route(r, serial, address.ip)
    case None => if Discovers(r, serial) then r.(discovered := r.discovered + {serial}) else r
    case Some(d) =>
      var before := IdentityOf(r, d);
      var after := Bind(before, serial, address);
      r.(identity := r.identity[d := after],
         bySerial := ReindexSerial(r.bySerial, d, before, after),
         byIp := ReindexIp(r.byIp, d, before, after))
  }

  function Received<D>(r: Router<D>, serial: string, address: Address): Outcome<D>
  {
    match Route(r, serial, address.ip)
    case Some(d) => Handed(d)
    case None => if Discovers(r, serial) then Reported(serial) else Ignored
  }

  /** `async_add_device` of a new device at a resolved address; a host already indexed is refused. */
  function Add<D>(r: Router<D>, ip: string, d: D): Router<D>
  {
    if ip in r.byIp then r
    else r.(byIp := r.byIp[ip := d],
            identity := r.identity[d := Identity(None, ip, DEFAULT_SEND_PORT)],
            registered := r.registered + {d})
  }

  /** The registered devices that share the serial of d. */
  function SharesSerial<D>(r: Router<D>, d: D): set<D>
  {
    set e | e in r.registered && e != d && SerialOf(r, e).Some? && SerialOf(r, e) == SerialOf(r, d)
  }

  /** `async_remove_device` of any device ever made; its address and its serial are dropped whichever device holds
      them. */
  function Remove<D>(r: Router<D>, d: D): Router<D>
  {
    var id := IdentityOf(r, d);
    var unlisted := r.(byIp := r.byIp - {id.hostIp}, registered := r.registered - {d},
                       cut := (r.cut + SharesSerial(r, d)) - {d});
    if id.serial.Some? && id.serial.value != ""
    then unlisted.(bySerial := r.bySerial - {id.serial.value}, discovered := r.discovered - {id.serial.value})
    else unlisted
  }

  function Stop<D>(r: Router<D>): Router<D>
  {
    r.(bySerial := map[], byIp := map[], discovered := {}, registered := {}, cut := {})
  }

  function Lookup<D>(r: Router<D>, serial: string): Option<D>
  {
    if serial in r.bySerial then Some(r.bySerial[serial]) else None
  }

  /** The `devices` property: whatever either index holds. */
  function Devices<D>(r: Router<D>): set<D>
  {
    r.byIp.Values + r.bySerial.Values
  }

  // Runs

  datatype Op<D> =
    | AddOp(ip: string, device: D)
    | RemoveOp(device: D)
    | ReceiveOp(serial: string, address: Address)
    | StopOp

  /** An added device is a new one, and a removed one was made by the listener; it need not be registered. */
  predicate Allowed<D>(r: Router<D>, op: Op<D>)
  {
    match op
    case AddOp(_, d) => d !in r.identity
    case RemoveOp(d) => d in r.identity
    case _ => true
  }

  function Step<D>(r: Router<D>, op: Op<D>): Router<D>
  {
    match op
    case AddOp(ip, d) => Add(r, ip, d)
    case RemoveOp(d) => Remove(r, d)
    case ReceiveOp(serial, address) => Receive(r, serial, address)
    case StopOp => Stop(r)
  }

  function OutcomeOf<D>(r: Router<D>, op: Op<D>): Outcome<D>
  {
    if op.ReceiveOp? then Received(r, op.serial, op.address) else Ignored
  }

  function Run<D>(r: Router<D>, ops: seq<Op<D>>): Router<D>
  {
    if |ops| == 0 then r else Step(Run(r, ops[..|ops| - 1]), ops[|ops| - 1])
  }

  ghost predicate AllowedRun<D>(r: Router<D>, ops: seq<Op<D>>)
  {
    |ops| > 0 ==> AllowedRun(r, ops[..|ops| - 1]) && Allowed(Run(r, ops[..|ops| - 1]), ops[|ops| - 1])
  }

  /** Some step i of the first n is of one kind, and none after it is of the other. */
  ghost predicate SinceStep(begins: nat -> bool, ends: nat -> bool, n: nat, i: nat)
  {
    i < n && begins(i) && forall k: nat :: i < k < n ==> !ends(k)
  }

  ghost predicate Since(begins: nat -> bool, ends: nat -> bool, n: nat)
  {
    exists i: nat :: SinceStep(begins, ends, n, i)
  }

  lemma SinceNext(begins: nat -> bool, ends: nat -> bool, begins': nat -> bool, ends': nat -> bool, n: nat)
    requires forall k: nat :: k < n ==> (begins(k) <==> begins'(k)) && (ends(k) <==> ends'(k))
    ensures Since(begins', ends', n + 1) <==> begins'(n) || (Since(begins, ends, n) && !ends'(n))
  {
    if Since(begins', ends', n + 1) {
      var i: nat :| SinceStep(begins', ends', n + 1, i);
      if i < n {
        assert SinceStep(begins, ends, n, i);
        assert !ends'(n);
      }
    }
    if begins'(n) {
      assert SinceStep(begins', ends', n + 1, n);
    } else if Since(begins, ends, n) && !ends'(n) {
      var i: nat :| SinceStep(begins, ends, n, i);
      assert SinceStep(begins', ends', n + 1, i);
    }
  }

  // Index refinement

  /** A registered device with a serial is found under it unless it was cut. */
  predicate FoundUnlessCut<D>(r: Router<D>, d: D)
  {
    SerialOf(r, d).Some? ==> (Lookup(r, SerialOf(r, d).value) == Some(d) <==> d !in r.cut)
  }

  ghost predicate IndexesRight<D>(r: Router<D>)
  {
    && (forall ip :: ip in r.byIp ==> r.byIp[ip] in r.registered && IdentityOf(r, r.byIp[ip]).hostIp == ip)
    && (forall s :: s in r.bySerial ==>
          NamesDevice(s) && r.bySerial[s] in r.registered && SerialOf(r, r.bySerial[s]) == Some(s))
  }

  ghost predicate Consistent<D>(r: Router<D>)
  {
    && r.registered <= r.identity.Keys && r.cut <= r.registered
    && IndexesRight(r)
    && (forall d :: d in r.identity && SerialOf(r, d).Some? ==> NamesDevice(SerialOf(r, d).value))
    && (forall d :: d in r.registered ==> FoundUnlessCut(r, d))
    && (forall d :: d in r.cut ==> SerialOf(r, d).Some?)
  }

  lemma ReceiveConsistent<D>(r: Router<D>, serial: string, address: Address)
    requires Consistent(r)
    ensures Consistent(Receive(r, serial, address))
  {
    var route := Route(r, serial, address.ip);
    if route.Some? {
      var d := route.value;
      var r' := Receive(r, serial, address);
      assert forall e :: e in r.registered && e != d ==> IdentityOf(r', e) == IdentityOf(r, e);
      if serial in r.bySerial {
        assert r'.bySerial == r.bySerial;
      } else {
        assert r'.byIp == r.byIp;
      }
      forall e | e in r.registered
        ensures FoundUnlessCut(r', e)
      {
        assert FoundUnlessCut(r, e);
      }
    }
  }

  lemma RemoveFinds<D>(r: Router<D>, d: D, e: D)
    requires Consistent(r) && d in r.identity && e in r.registered && e != d
    ensures FoundUnlessCut(Remove(r, d), e)
  {
    assert FoundUnlessCut(r, e);
  }

  lemma RemoveIndexes<D>(r: Router<D>, d: D)
    requires Consistent(r) && d in r.identity
    ensures IndexesRight(Remove(r, d))
  {
  }

  lemma RemoveConsistent<D>(r: Router<D>, d: D)
    requires Consistent(r) && d in r.identity
    ensures Consistent(Remove(r, d))
  {
    var r' := Remove(r, d);
    RemoveIndexes(r, d);
    forall e | e in r'.registered
      ensures FoundUnlessCut(r', e)
    {
      RemoveFinds(r, d, e);
    }
    assert forall e :: e in r.identity ==> IdentityOf(r', e) == IdentityOf(r, e);
  }

  lemma ConsistentStep<D>(r: Router<D>, op: Op<D>)
    requires Consistent(r) && Allowed(r, op)
    ensures Consistent(Step(r, op))
  {
    match op
    case AddOp(ip, d) =>
      var r' := Step(r, op);
      assert forall e :: e in r.registered ==> IdentityOf(r', e) == IdentityOf(r, e);
    case RemoveOp(d) => RemoveConsistent(r, d);
    case ReceiveOp(serial, address) => ReceiveConsistent(r, serial, address);
    case StopOp =>
  }

  lemma {:induction false} ConsistentRun<D>(reports: bool, ops: seq<Op<D>>)
    requires AllowedRun(Empty<D>(reports), ops)
    ensures Consistent(Run(Empty<D>(reports), ops))
  {
    if |ops| == 0 {
    } else {
      ConsistentRun(reports, ops[..|ops| - 1]);
      ConsistentStep(Run(Empty(reports), ops[..|ops| - 1]), ops[|ops| - 1]);
    }
  }

  /** A serial once learned is kept, and a device never comes back once it is not registered. */
  ghost predicate Keeps<D>(r: Router<D>, r': Router<D>, d: D)
  {
    && (d in r.identity ==> d in r'.identity)
    && (SerialOf(r, d).Some? ==> SerialOf(r', d) == SerialOf(r, d))
    && (d in r.identity && d !in r.registered ==> d !in r'.registered && IdentityOf(r', d) == IdentityOf(r, d))
  }

  lemma KeepsStep<D>(r: Router<D>, op: Op<D>, d: D)
    requires Consistent(r) && Allowed(r, op)
    ensures Keeps(r, Step(r, op), d)
  {
  }

  // The index by serial

  /** The step drops the serial entry of a registered device: another device with its serial is removed. */
  predicate Cuts<D>(r: Router<D>, op: Op<D>, d: D)
  {
    op.RemoveOp? && op.device != d && SerialOf(r, d).Some? && SerialOf(r, op.device) == SerialOf(r, d)
  }

  predicate CutsAt<D>(r: Router<D>, ops: seq<Op<D>>, k: nat, d: D)
  {
    k < |ops| && d in Run(r, ops[..k]).registered && Cuts(Run(r, ops[..k]), ops[k], d)
  }

  ghost predicate CutIn<D>(r: Router<D>, ops: seq<Op<D>>, d: D)
  {
    exists k: nat :: CutsAt(r, ops, k, d)
  }

  lemma CutInNext<D>(r: Router<D>, ops: seq<Op<D>>, d: D)
    requires |ops| > 0
    ensures CutIn(r, ops, d) <==> CutIn(r, ops[..|ops| - 1], d) || CutsAt(r, ops, |ops| - 1, d)
  {
    var n := |ops| - 1;
    forall k: nat | k < n
      ensures CutsAt(r, ops[..n], k, d) <==> CutsAt(r, ops, k, d)
    {
      assert ops[..n][..k] == ops[..k];
    }
    if CutIn(r, ops[..n], d) {
      var k: nat :| CutsAt(r, ops[..n], k, d);
      assert CutsAt(r, ops, k, d);
    }
    if CutIn(r, ops, d) {
      var k: nat :| CutsAt(r, ops, k, d);
      assert k < n ==> CutsAt(r, ops[..n], k, d);
    }
  }

  /** A device never made was never cut. */
  lemma {:induction false} NewNotCut<D>(reports: bool, ops: seq<Op<D>>, d: D)
    requires AllowedRun(Empty<D>(reports), ops) && d !in Run(Empty<D>(reports), ops).identity
    ensures !CutIn(Empty<D>(reports), ops, d)
  {
    if |ops| == 0 {
    } else {
      var n := |ops| - 1;
      ConsistentRun(reports, ops[..n]);
      KeepsStep(Run(Empty<D>(reports), ops[..n]), ops[n], d);
      NewNotCut(reports, ops[..n], d);
      CutInNext(Empty<D>(reports), ops, d);
    }
  }

  lemma CutStep<D>(r: Router<D>, op: Op<D>, d: D)
    requires Consistent(r) && Allowed(r, op) && d in Step(r, op).registered
    ensures d in r.registered ==> (d in Step(r, op).cut <==> d in r.cut || Cuts(r, op, d))
    ensures d !in r.registered ==> d !in r.identity && d !in Step(r, op).cut
  {
  }

  lemma CutNext<D>(reports: bool, ops: seq<Op<D>>, d: D)
    requires |ops| > 0 && AllowedRun(Empty<D>(reports), ops) && d in Run(Empty<D>(reports), ops).registered
    requires var before := ops[..|ops| - 1];
             d in Run(Empty<D>(reports), before).registered ==>
               (d in Run(Empty<D>(reports), before).cut <==> CutIn(Empty<D>(reports), before, d))
    ensures d in Run(Empty<D>(reports), ops).cut <==> CutIn(Empty<D>(reports), ops, d)
  {
    var n := |ops| - 1;
    var before := Run(Empty<D>(reports), ops[..n]);
    ConsistentRun(reports, ops[..n]);
    CutStep(before, ops[n], d);
    CutInNext(Empty<D>(reports), ops, d);
    if d !in before.registered {
      NewNotCut(reports, ops[..n], d);
    }
  }

  /** The devices cut are those that a step of the run cut. */
  lemma {:induction false} CutMeaning<D>(reports: bool, ops: seq<Op<D>>, d: D)
    requires AllowedRun(Empty<D>(reports), ops) && d in Run(Empty<D>(reports), ops).registered
    ensures d in Run(Empty<D>(reports), ops).cut <==> CutIn(Empty<D>(reports), ops, d)
  {
    if |ops| == 0 {
      assert false;
    } else {
      if d in Run(Empty<D>(reports), ops[..|ops| - 1]).registered {
        CutMeaning(reports, ops[..|ops| - 1], d);
      }
      CutNext(reports, ops, d);
    }
  }

  /** Index refinement: over every run, looking a serial up finds exactly the registered device that has it and was
      not cut, as a scan of the registered devices would; registered devices share a serial only if one was cut. */
  lemma LookupIsScan<D>(reports: bool, ops: seq<Op<D>>, serial: string)
    requires AllowedRun(Empty<D>(reports), ops)
    ensures var r := Run(Empty<D>(reports), ops);
            && (forall d :: d in r.registered ==>
                  (SerialOf(r, d) == Some(serial) && !CutIn(Empty<D>(reports), ops, d)
                   <==> Lookup(r, serial) == Some(d)))
            && (Lookup(r, serial).Some? ==> Lookup(r, serial).value in r.registered)
            && (forall d, e :: d in r.registered && e in r.registered && d != e && SerialOf(r, d).Some?
                  && SerialOf(r, d) == SerialOf(r, e)
                  ==> CutIn(Empty<D>(reports), ops, d) || CutIn(Empty<D>(reports), ops, e))
  {
    ConsistentRun(reports, ops);
    forall d | d in Run(Empty<D>(reports), ops).registered
      ensures d in Run(Empty<D>(reports), ops).cut <==> CutIn(Empty<D>(reports), ops, d)
    {
      CutMeaning(reports, ops, d);
    }
  }

  /** Only registered devices are removed. */
  ghost predicate RemovesRegistered<D>(r: Router<D>, ops: seq<Op<D>>)
  {
    forall k: nat :: k < |ops| && ops[k].RemoveOp? ==> ops[k].device in Run(r, ops[..k]).registered
  }

  lemma RemovesRegisteredBefore<D>(r: Router<D>, ops: seq<Op<D>>)
    requires |ops| > 0 && RemovesRegistered(r, ops)
    ensures RemovesRegistered(r, ops[..|ops| - 1])
    ensures ops[|ops| - 1].RemoveOp? ==> ops[|ops| - 1].device in Run(r, ops[..|ops| - 1]).registered
  {
    var n := |ops| - 1;
    forall k: nat | k < n && ops[..n][k].RemoveOp?
      ensures ops[..n][k].device in Run(r, ops[..n][..k]).registered
    {
      assert ops[..n][..k] == ops[..k] && ops[..n][k] == ops[k];
    }
  }

  lemma UncutStep<D>(r: Router<D>, op: Op<D>)
    requires Consistent(r) && Allowed(r, op) && r.cut == {} && (op.RemoveOp? ==> op.device in r.registered)
    ensures Step(r, op).cut == {}
  {
  }

  /** Where only registered devices are removed nothing is cut, so a lookup is a scan and serials are not shared. */
  lemma {:induction false} RegisteredRemovalsCutNothing<D>(reports: bool, ops: seq<Op<D>>)
    requires AllowedRun(Empty<D>(reports), ops) && RemovesRegistered(Empty<D>(reports), ops)
    ensures Run(Empty<D>(reports), ops).cut == {}
  {
    if |ops| == 0 {
    } else {
      RemovesRegisteredBefore(Empty<D>(reports), ops);
      RegisteredRemovalsCutNothing(reports, ops[..|ops| - 1]);
      ConsistentRun(reports, ops[..|ops| - 1]);
      UncutStep(Run(Empty<D>(reports), ops[..|ops| - 1]), ops[|ops| - 1]);
    }
  }

  // The index by address

  /** The index by address holds d at its address. */
  predicate AtAddress<D>(r: Router<D>, d: D)
  {
    IdentityOf(r, d).hostIp in r.byIp && r.byIp[IdentityOf(r, d).hostIp] == d
  }

  /** The step gives a device its address: it is added there, or sends a frame from another address. */
  predicate Places<D>(r: Router<D>, op: Op<D>, d: D)
  {
    match op
    case AddOp(ip, e) => e == d && ip !in r.byIp
    case ReceiveOp(serial, address) =>
      OutcomeOf(r, op) == Handed(d) && address.ip != IdentityOf(r, d).hostIp
    case _ => false
  }

  /** The step takes a device's address: another charger, recorded elsewhere, sends from it, or another device recorded
      there is removed. */
  predicate Displaces<D>(r: Router<D>, op: Op<D>, d: D)
  {
    match op
    case ReceiveOp(serial, address) =>
      && address.ip == IdentityOf(r, d).hostIp && OutcomeOf(r, op).Handed?
      && IdentityOf(r, OutcomeOf(r, op).device).hostIp != address.ip
    case RemoveOp(e) => e != d && IdentityOf(r, e).hostIp == IdentityOf(r, d).hostIp
    case _ => false
  }

  lemma AddressReceive<D>(r: Router<D>, serial: string, address: Address, d: D)
    requires Consistent(r) && d in r.registered
    ensures var op := ReceiveOp(serial, address);
            AtAddress(Receive(r, serial, address), d)
            <==> Places(r, op, d) || (AtAddress(r, d) && !Displaces(r, op, d))
  {
    var route := Route(r, serial, address.ip);
    if route.Some? && route.value != d {
      assert IdentityOf(Receive(r, serial, address), d) == IdentityOf(r, d);
    }
  }

  lemma AddressAdd<D>(r: Router<D>, ip: string, e: D, d: D)
    requires Consistent(r) && e !in r.identity && d in Add(r, ip, e).registered
    ensures AtAddress(Add(r, ip, e), d)
       <==> Places(r, AddOp(ip, e), d) || (d in r.registered && AtAddress(r, d))
  {
  }

  lemma AddressRemove<D>(r: Router<D>, e: D, d: D)
    requires Consistent(r) && e in r.identity && d in r.registered && e != d
    ensures AtAddress(Remove(r, e), d) <==> AtAddress(r, d) && !Displaces(r, RemoveOp(e), d)
  {
  }

  lemma AddressStep<D>(r: Router<D>, op: Op<D>, d: D)
    requires Consistent(r) && Allowed(r, op) && d in Step(r, op).registered
    ensures AtAddress(Step(r, op), d) <==>
              Places(r, op, d) || (d in r.registered && AtAddress(r, d) && !Displaces(r, op, d))
  {
    match op
    case AddOp(ip, e) => AddressAdd(r, ip, e, d);
    case RemoveOp(e) => AddressRemove(r, e, d);
    case ReceiveOp(serial, address) => AddressReceive(r, serial, address, d);
    case StopOp =>
  }

  predicate PlacesAt<D>(r: Router<D>, ops: seq<Op<D>>, i: nat, d: D)
  {
    i < |ops| && Places(Run(r, ops[..i]), ops[i], d)
  }

  predicate DisplacesAt<D>(r: Router<D>, ops: seq<Op<D>>, k: nat, d: D)
  {
    k < |ops| && Displaces(Run(r, ops[..k]), ops[k], d)
  }

  function Placing<D>(r: Router<D>, ops: seq<Op<D>>, d: D): nat -> bool
  {
    (i: nat) => PlacesAt(r, ops, i, d)
  }

  function Displacing<D>(r: Router<D>, ops: seq<Op<D>>, d: D): nat -> bool
  {
    (k: nat) => DisplacesAt(r, ops, k, d)
  }

  /** A step gave the device an address, and none since took it. */
  ghost predicate Placed<D>(r: Router<D>, ops: seq<Op<D>>, d: D)
  {
    Since(Placing(r, ops, d), Displacing(r, ops, d), |ops|)
  }

  lemma PlacedNext<D>(r: Router<D>, ops: seq<Op<D>>, d: D)
    requires |ops| > 0
    ensures Placed(r, ops, d) <==>
              PlacesAt(r, ops, |ops| - 1, d)
              || (Placed(r, ops[..|ops| - 1], d) && !DisplacesAt(r, ops, |ops| - 1, d))
  {
    var n := |ops| - 1;
    forall k: nat | k < n
      ensures PlacesAt(r, ops[..n], k, d) <==> PlacesAt(r, ops, k, d)
      ensures DisplacesAt(r, ops[..n], k, d) <==> DisplacesAt(r, ops, k, d)
    {
      assert ops[..n][..k] == ops[..k];
    }
    SinceNext(Placing(r, ops[..n], d), Displacing(r, ops[..n], d), Placing(r, ops, d), Displacing(r, ops, d), n);
  }

  lemma AddressNext<D>(reports: bool, ops: seq<Op<D>>, d: D)
    requires |ops| > 0 && AllowedRun(Empty<D>(reports), ops) && d in Run(Empty<D>(reports), ops).registered
    requires var before := ops[..|ops| - 1];
             d in Run(Empty<D>(reports), before).registered ==>
               (AtAddress(Run(Empty<D>(reports), before), d) <==> Placed(Empty<D>(reports), before, d))
    ensures AtAddress(Run(Empty<D>(reports), ops), d) <==> Placed(Empty<D>(reports), ops, d)
  {
    var n := |ops| - 1;
    var before := Run(Empty<D>(reports), ops[..n]);
    ConsistentRun(reports, ops[..n]);
    AddressStep(before, ops[n], d);
    PlacedNext(Empty<D>(reports), ops, d);
    if d !in before.registered {
      CutStep(before, ops[n], d);
      assert Places(before, ops[n], d);
    }
  }

  /** The index by address holds a registered device exactly if a step placed it and none since took its address. */
  lemma {:induction false} AddressMeaning<D>(reports: bool, ops: seq<Op<D>>, d: D)
    requires AllowedRun(Empty<D>(reports), ops) && d in Run(Empty<D>(reports), ops).registered
    ensures AtAddress(Run(Empty<D>(reports), ops), d) <==> Placed(Empty<D>(reports), ops, d)
  {
    if |ops| == 0 {
      assert false;
    } else {
      if d in Run(Empty<D>(reports), ops[..|ops| - 1]).registered {
        AddressMeaning(reports, ops[..|ops| - 1], d);
      }
      AddressNext(reports, ops, d);
    }
  }

  // The devices property

  lemma ListedExactly<D>(r: Router<D>, d: D)
    requires Consistent(r) && d in r.registered
    ensures d in Devices(r) <==> (SerialOf(r, d).Some? && d !in r.cut) || AtAddress(r, d)
  {
    assert FoundUnlessCut(r, d);
    if SerialOf(r, d).Some? && d !in r.cut {
      assert SerialOf(r, d).value in r.bySerial;
    }
  }

  /** A device learns its serial, or moves, only from a frame handed to it through an index that holds it. */
  lemma LearnsAtAddress<D>(r: Router<D>, op: Op<D>, d: D)
    requires Consistent(r) && Allowed(r, op) && d in r.registered && d in Step(r, op).registered
    ensures SerialOf(r, d).None? && SerialOf(Step(r, op), d).Some? ==> AtAddress(r, d) && !Displaces(r, op, d)
    ensures Places(r, op, d) ==> SerialOf(r, d).Some? && d !in r.cut && !Cuts(r, op, d)
    ensures SerialOf(r, d).Some? ==> SerialOf(Step(r, op), d) == SerialOf(r, d)
  {
    if SerialOf(r, d).Some? {
      assert FoundUnlessCut(r, d);
      KeepsStep(r, op, d);
    }
  }

  /** What a step does to a registered device it keeps registered: a listed one is missing after it exactly if neither
      index still holds it, and a missing one never comes back. */
  lemma LosesStep<D>(r: Router<D>, op: Op<D>, d: D)
    requires Consistent(r) && Allowed(r, op) && d in r.registered && d in Step(r, op).registered
    ensures d in Devices(r) ==>
              (d !in Devices(Step(r, op))
               <==> (SerialOf(r, d).None? || d in r.cut || Cuts(r, op, d))
                    && (!AtAddress(r, d) || Displaces(r, op, d)))
    ensures d !in Devices(r) ==> d !in Devices(Step(r, op))
  {
    ConsistentStep(r, op);
    ListedExactly(r, d);
    ListedExactly(Step(r, op), d);
    CutStep(r, op, d);
    AddressStep(r, op, d);
    LearnsAtAddress(r, op, d);
  }

  /** The devices property over every run: a registered device is missing from it exactly if its serial is unknown or a
      step of the run cut it, and no step placed it whose address none since took. */
  lemma DevicesExact<D>(reports: bool, ops: seq<Op<D>>, d: D)
    requires AllowedRun(Empty<D>(reports), ops) && d in Run(Empty<D>(reports), ops).registered
    ensures d !in Devices(Run(Empty<D>(reports), ops))
       <==> (SerialOf(Run(Empty<D>(reports), ops), d).None? || CutIn(Empty<D>(reports), ops, d))
            && !Placed(Empty<D>(reports), ops, d)
    ensures Devices(Run(Empty<D>(reports), ops)) <= Run(Empty<D>(reports), ops).registered
  {
    ConsistentRun(reports, ops);
    ListedExactly(Run(Empty<D>(reports), ops), d);
    CutMeaning(reports, ops, d);
    AddressMeaning(reports, ops, d);
  }

  lemma RunMore<D>(r: Router<D>, ops: seq<Op<D>>, op: Op<D>)
    ensures Run(r, ops + [op]) == Step(Run(r, ops), op)
    ensures AllowedRun(r, ops) && Allowed(Run(r, ops), op) ==> AllowedRun(r, ops + [op])
  {
    assert (ops + [op])[..|ops|] == ops;
  }

  /** A run that loses a registered device: a known charger moves to the address of one not heard from. */
  lemma LostDevice<D>(first: D, second: D, serial: string)
    requires first != second && NamesDevice(serial)
    ensures var ops: seq<Op<D>> := [AddOp("10.0.0.1", first), ReceiveOp(serial, Address("10.0.0.1", 7248)),
                                      AddOp("10.0.0.2", second), ReceiveOp(serial, Address("10.0.0.2", 7248))];
            && AllowedRun(Empty<D>(true), ops)
            && second in Run(Empty<D>(true), ops).registered
            && second !in Devices(Run(Empty<D>(true), ops))
  {
    var r0 := Empty<D>(true);
    var a: Op<D>, b: Op<D> := AddOp("10.0.0.1", first), ReceiveOp(serial, Address("10.0.0.1", 7248));
    var c: Op<D>, d: Op<D> := AddOp("10.0.0.2", second), ReceiveOp(serial, Address("10.0.0.2", 7248));
    RunMore(r0, [], a);
    RunMore(r0, [a], b);
    RunMore(r0, [a, b], c);
    RunMore(r0, [a, b, c], d);
    assert [] + [a] == [a] && [a] + [b] == [a, b] && [a, b] + [c] == [a, b, c] && [a, b, c] + [d] == [a, b, c, d];
    assert Run(r0, [a, b]).byIp == map["10.0.0.1" := first];
    assert Run(r0, [a, b, c]).bySerial == map[serial := first];
    assert Run(r0, [a, b, c, d]).byIp == map["10.0.0.2" := first];
  }

  /** A charger's device is removed, and the charger is added anew and heard from. */
  function Readded<D>(first: D, second: D, serial: string): seq<Op<D>>
  {
    [AddOp("10.0.0.1", first), ReceiveOp(serial, Address("10.0.0.1", 7248)), RemoveOp(first),
     AddOp("10.0.0.1", second), ReceiveOp(serial, Address("10.0.0.1", 7248))]
  }

  lemma ReaddedFound<D>(first: D, second: D, serial: string)
    requires first != second && NamesDevice(serial)
    ensures var r := Run(Empty<D>(true), Readded(first, second, serial));
            && AllowedRun(Empty<D>(true), Readded(first, second, serial))
            && r.byIp == map["10.0.0.1" := second] && r.bySerial == map[serial := second]
            && r.registered == {second} && r.identity.Keys == {first, second}
            && r.identity[first] == r.identity[second] == Identity(Some(serial), "10.0.0.1", 7248)
  {
    var r0 := Empty<D>(true);
    var a: Op<D>, b: Op<D> := AddOp("10.0.0.1", first), ReceiveOp(serial, Address("10.0.0.1", 7248));
    var c: Op<D>, d: Op<D> := RemoveOp(first), AddOp("10.0.0.1", second);
    RunMore(r0, [], a);
    RunMore(r0, [a], b);
    RunMore(r0, [a, b], c);
    RunMore(r0, [a, b, c], d);
    RunMore(r0, [a, b, c, d], b);
    assert [] + [a] == [a] && [a] + [b] == [a, b] && [a, b] + [c] == [a, b, c] && [a, b, c] + [d] == [a, b, c, d];
    assert [a, b, c, d] + [b] == [a, b, c, d, b];
    assert Run(r0, [a, b]).bySerial == map[serial := first];
    assert Run(r0, [a, b, c]).bySerial == map[] && Run(r0, [a, b, c]).byIp == map[];
    assert Run(r0, [a, b, c, d]).byIp == map["10.0.0.1" := second];
  }

  /** A run that cuts a device: once the charger was added anew, its first device is removed once more. The new one is
      then in neither index. */
  lemma RemovedTwice<D>(first: D, second: D, serial: string)
    requires first != second && NamesDevice(serial)
    ensures var ops: seq<Op<D>> := Readded(first, second, serial) + [RemoveOp(first)];
            var r := Run(Empty<D>(true), ops);
            && AllowedRun(Empty<D>(true), ops)
            && second in r.registered && SerialOf(r, second) == Some(serial)
            && Lookup(r, serial).None? && second !in Devices(r)
  {
    ReaddedFound(first, second, serial);
    RunMore(Empty<D>(true), Readded(first, second, serial), RemoveOp(first));
    var r := Run(Empty<D>(true), Readded(first, second, serial) + [RemoveOp(first)]);
    assert r.bySerial == map[] && r.byIp == map[];
  }

  /** A device waits at its address, and a charger is known at another. */
  function Neighbours<D>(first: D, second: D, serial: string): seq<Op<D>>
  {
    [AddOp("10.0.0.1", first), AddOp("10.0.0.2", second), ReceiveOp(serial, Address("10.0.0.2", 7248))]
  }

  lemma NeighboursListed<D>(first: D, second: D, serial: string)
    requires first != second && NamesDevice(serial)
    ensures var r := Run(Empty<D>(true), Neighbours(first, second, serial));
            && AllowedRun(Empty<D>(true), Neighbours(first, second, serial))
            && r.byIp == map["10.0.0.1" := first, "10.0.0.2" := second] && r.bySerial == map[serial := second]
            && r.registered == {first, second} && r.identity.Keys == {first, second}
            && r.identity[first] == Identity(None, "10.0.0.1", DEFAULT_SEND_PORT)
            && r.identity[second] == Identity(Some(serial), "10.0.0.2", 7248)
  {
    var r0 := Empty<D>(true);
    var a: Op<D>, b: Op<D>, c: Op<D> :=
      AddOp("10.0.0.1", first), AddOp("10.0.0.2", second), ReceiveOp(serial, Address("10.0.0.2", 7248));
    RunMore(r0, [], a);
    RunMore(r0, [a], b);
    RunMore(r0, [a, b], c);
    assert [] + [a] == [a] && [a] + [b] == [a, b] && [a, b] + [c] == [a, b, c];
    assert Run(r0, [a, b]).byIp == map["10.0.0.1" := first, "10.0.0.2" := second];
  }

  /** The charger visits the address of the device and goes home. */
  function Visit<D>(first: D, second: D, serial: string): seq<Op<D>>
  {
    Neighbours(first, second, serial) + [ReceiveOp(serial, Address("10.0.0.1", 7248))]
    + [ReceiveOp(serial, Address("10.0.0.2", 7248))]
  }

  /** The visit leaves the address free in the index, though `first` still has it. */
  lemma VisitFrees<D>(first: D, second: D, serial: string)
    requires first != second && NamesDevice(serial)
    ensures var r := Run(Empty<D>(true), Visit(first, second, serial));
            && AllowedRun(Empty<D>(true), Visit(first, second, serial))
            && r.byIp == map["10.0.0.2" := second] && r.bySerial == map[serial := second]
            && r.registered == {first, second} && r.identity.Keys == {first, second}
            && r.identity[first] == Identity(None, "10.0.0.1", DEFAULT_SEND_PORT)
  {
    var r0, near := Empty<D>(true), Neighbours(first, second, serial);
    var away: Op<D>, home: Op<D> :=
      ReceiveOp(serial, Address("10.0.0.1", 7248)), ReceiveOp(serial, Address("10.0.0.2", 7248));
    NeighboursListed(first, second, serial);
    RunMore(r0, near, away);
    RunMore(r0, near + [away], home);
    assert Run(r0, near + [away]).byIp == map["10.0.0.1" := second];
    assert Run(r0, near + [away] + [home]).byIp == map["10.0.0.2" := second];
  }

  /** The other way: after such a visit `third` is added at the free address, and `first` is removed. Nobody took
      the address from `third`. */
  lemma LostByRemoval<D>(first: D, second: D, third: D, serial: string)
    requires first != second && first != third && second != third && NamesDevice(serial)
    ensures var ops: seq<Op<D>> := Visit(first, second, serial) + [AddOp("10.0.0.1", third)] + [RemoveOp(first)];
            && AllowedRun(Empty<D>(true), ops)
            && third in Run(Empty<D>(true), ops).registered
            && third !in Devices(Run(Empty<D>(true), ops))
  {
    var visit, add: Op<D> := Visit(first, second, serial), AddOp("10.0.0.1", third);
    VisitFrees(first, second, serial);
    RunMore(Empty<D>(true), visit, add);
    RunMore(Empty<D>(true), visit + [add], RemoveOp(first));
    var r := Run(Empty<D>(true), visit + [add] + [RemoveOp(first)]);
    assert r.byIp == map["10.0.0.2" := second] && r.bySerial == map[serial := second];
  }

  // Serials and routing

  lemma ConsistentFrom<D>(r: Router<D>, ops: seq<Op<D>>)
    requires Consistent(r) && AllowedRun(r, ops)
    ensures Consistent(Run(r, ops))
  {
    if |ops| == 0 {
    } else {
      ConsistentFrom(r, ops[..|ops| - 1]);
      ConsistentStep(Run(r, ops[..|ops| - 1]), ops[|ops| - 1]);
    }
  }

  /** Over every run a device's serial is written once, and a removed device keeps its fields and stays out. */
  lemma {:induction false} SerialWriteOnce<D>(r: Router<D>, ops: seq<Op<D>>, d: D)
    requires Consistent(r) && AllowedRun(r, ops)
    ensures Keeps(r, Run(r, ops), d)
  {
    if |ops| == 0 {
    } else {
      SerialWriteOnce(r, ops[..|ops| - 1], d);
      ConsistentFrom(r, ops[..|ops| - 1]);
      KeepsStep(Run(r, ops[..|ops| - 1]), ops[|ops| - 1], d);
    }
  }

  lemma HandedStep<D>(r: Router<D>, serial: string, address: Address)
    requires Consistent(r)
    ensures var after := Receive(r, serial, address);
            match Received(r, serial, address)
            case Handed(d) =>
              && d in r.registered
              && (SerialOf(after, d) == Some(serial) || (!NamesDevice(serial) && SerialOf(after, d).None?))
              && IdentityOf(after, d).hostIp == address.ip && IdentityOf(after, d).sendPort == address.port
            case _ => forall d :: d in r.registered && SerialOf(r, d) == Some(serial) ==> d in r.cut
  {
    forall d | d in r.registered && SerialOf(r, d) == Some(serial)
      ensures d in r.cut || Lookup(r, serial) == Some(d)
    {
      assert FoundUnlessCut(r, d);
    }
  }

  /** A frame is handed only to a registered device, whose serial afterwards is the frame's, unless the
      frame names no device and the serial is still unknown; registered devices passed over were cut. */
  lemma HandedRight<D>(reports: bool, ops: seq<Op<D>>, serial: string, address: Address)
    requires AllowedRun(Empty<D>(reports), ops)
    ensures var r := Run(Empty<D>(reports), ops);
            var after := Receive(r, serial, address);
            match Received(r, serial, address)
            case Handed(d) =>
              && d in r.registered
              && (SerialOf(after, d) == Some(serial) || (!NamesDevice(serial) && SerialOf(after, d).None?))
              && IdentityOf(after, d).hostIp == address.ip && IdentityOf(after, d).sendPort == address.port
            case _ =>
              forall d :: d in r.registered && SerialOf(r, d) == Some(serial) ==> CutIn(Empty<D>(reports), ops, d)
  {
    ConsistentRun(reports, ops);
    HandedStep(Run(Empty<D>(reports), ops), serial, address);
    forall d | d in Run(Empty<D>(reports), ops).cut
      ensures CutIn(Empty<D>(reports), ops, d)
    {
      CutMeaning(reports, ops, d);
    }
  }

  /** A removed device is never handed a frame again. */
  lemma RemovedNeverHanded<D>(r: Router<D>, d: D, ops: seq<Op<D>>, serial: string, address: Address)
    requires Consistent(r) && d in r.registered && AllowedRun(Remove(r, d), ops)
    ensures Received(Run(Remove(r, d), ops), serial, address) != Handed(d)
  {
    RemoveConsistent(r, d);
    SerialWriteOnce(Remove(r, d), ops, d);
    ConsistentFrom(Remove(r, d), ops);
  }

  // Discovery

  /** The step lets a serial be reported again: a stop, or the removal of a device that has it. */
  predicate Clears<D>(r: Router<D>, op: Op<D>, serial: string)
  {
    op.StopOp? || (op.RemoveOp? && SerialOf(r, op.device) == Some(serial))
  }

  predicate ReportsAt<D>(r: Router<D>, ops: seq<Op<D>>, i: nat, serial: string)
  {
    i < |ops| && OutcomeOf(Run(r, ops[..i]), ops[i]) == Reported(serial)
  }

  predicate ClearsAt<D>(r: Router<D>, ops: seq<Op<D>>, k: nat, serial: string)
  {
    k < |ops| && Clears(Run(r, ops[..k]), ops[k], serial)
  }

  lemma StillDiscovered<D>(r: Router<D>, ops: seq<Op<D>>, m: nat, n: nat, serial: string)
    requires n == m + 1 <= |ops| && (serial in Run(r, ops[..m]).discovered || ReportsAt(r, ops, m, serial))
    requires !ClearsAt(r, ops, m, serial) || ReportsAt(r, ops, m, serial)
    ensures serial in Run(r, ops[..n]).discovered
  {
    assert ops[..n][..m] == ops[..m];
  }

  /** A reported serial stays known until a step clears it. */
  lemma {:induction false} StaysDiscovered<D>(r: Router<D>, ops: seq<Op<D>>, i: nat, n: nat, serial: string)
    requires i < n <= |ops| && ReportsAt(r, ops, i, serial)
    requires forall k: nat :: i < k < n ==> !ClearsAt(r, ops, k, serial)
    ensures serial in Run(r, ops[..n]).discovered
  {
    if i == n - 1 {
    } else {
      StaysDiscovered(r, ops, i, n - 1, serial);
    }
    StillDiscovered(r, ops, n - 1, n, serial);
  }

  /** Discovery once: between two reports of one serial lies a stop or the removal of a device that has
      it; the zero serial is never reported, nor a serial a registered device holds. */
  lemma DiscoveryOnce<D>(reports: bool, ops: seq<Op<D>>, i: nat, j: nat, serial: string)
    requires AllowedRun(Empty<D>(reports), ops) && i < j
    requires ReportsAt(Empty(reports), ops, i, serial) && ReportsAt(Empty(reports), ops, j, serial)
    ensures exists k: nat :: i < k < j && ClearsAt(Empty(reports), ops, k, serial)
  {
    if forall k: nat :: i < k < j ==> !ClearsAt(Empty(reports), ops, k, serial) {
      StaysDiscovered(Empty(reports), ops, i, j, serial);
      assert false;
    }
  }

  function Reporting<D>(r: Router<D>, ops: seq<Op<D>>, serial: string): nat -> bool
  {
    (i: nat) => ReportsAt(r, ops, i, serial)
  }

  function Clearing<D>(r: Router<D>, ops: seq<Op<D>>, serial: string): nat -> bool
  {
    (k: nat) => ClearsAt(r, ops, k, serial)
  }

  /** Serial was reported, and no step since lets it be reported again. */
  ghost predicate ReportStands<D>(r: Router<D>, ops: seq<Op<D>>, serial: string)
  {
    Since(Reporting(r, ops, serial), Clearing(r, ops, serial), |ops|)
  }

  lemma ReportStandsNext<D>(r: Router<D>, ops: seq<Op<D>>, serial: string)
    requires |ops| > 0
    ensures var n := |ops| - 1;
            ReportStands(r, ops, serial)
            <==> ReportsAt(r, ops, n, serial) || (ReportStands(r, ops[..n], serial) && !ClearsAt(r, ops, n, serial))
  {
    var n := |ops| - 1;
    forall k: nat | k < n
      ensures ReportsAt(r, ops[..n], k, serial) <==> ReportsAt(r, ops, k, serial)
      ensures ClearsAt(r, ops[..n], k, serial) <==> ClearsAt(r, ops, k, serial)
    {
      assert ops[..n][..k] == ops[..k];
    }
    SinceNext(Reporting(r, ops[..n], serial), Clearing(r, ops[..n], serial),
              Reporting(r, ops, serial), Clearing(r, ops, serial), n);
  }

  lemma DiscoveredStep<D>(r: Router<D>, op: Op<D>, serial: string)
    requires Consistent(r) && Allowed(r, op)
    ensures serial in Step(r, op).discovered
       <==> OutcomeOf(r, op) == Reported(serial) || (serial in r.discovered && !Clears(r, op, serial))
  {
  }

  /** What is remembered as discovered is exactly what was reported with no stop and no removal of a device that
      has it since; so a removal or a stop makes a charger a discovery again. */
  lemma {:induction false} DiscoveredMeaning<D>(reports: bool, ops: seq<Op<D>>, serial: string)
    requires AllowedRun(Empty<D>(reports), ops)
    ensures serial in Run(Empty<D>(reports), ops).discovered <==> ReportStands(Empty<D>(reports), ops, serial)
  {
    if |ops| == 0 {
    } else {
      var n := |ops| - 1;
      DiscoveredMeaning(reports, ops[..n], serial);
      ConsistentRun(reports, ops[..n]);
      DiscoveredStep(Run(Empty<D>(reports), ops[..n]), ops[n], serial);
      ReportStandsNext(Empty<D>(reports), ops, serial);
    }
  }

  lemma {:induction false} ReportsKept<D>(reports: bool, ops: seq<Op<D>>)
    ensures Run(Empty<D>(reports), ops).reports == reports
  {
    if |ops| == 0 {
    } else {
      ReportsKept(reports, ops[..|ops| - 1]);
    }
  }

  /** A frame that names a charger and is handed to nobody is reported, unless reporting is off or a report of
      its serial still stands. */
  lemma StrangersReported<D>(reports: bool, ops: seq<Op<D>>, serial: string, address: Address)
    requires AllowedRun(Empty<D>(reports), ops) && serial != ZERO_SERIAL
    ensures var r := Run(Empty<D>(reports), ops);
            Route(r, serial, address.ip).None? ==>
              (Received(r, serial, address) == Reported(serial)
               <==> reports && !ReportStands(Empty<D>(reports), ops, serial))
  {
    DiscoveredMeaning(reports, ops, serial);
    ReportsKept(reports, ops);
  }

  // Learning and following a device

  /** A device just added is found by the first frame from its address that no registered device claims, and is
      registered under that frame's serial from then on. */
  lemma AddedLearnsSerial<D>(r: Router<D>, ip: string, d: D, serial: string, port: int)
    requires Consistent(r) && Allowed(r, AddOp(ip, d)) && ip !in r.byIp
    requires NamesDevice(serial) && serial !in r.bySerial
    ensures var added := Add(r, ip, d);
            var learned := Receive(added, serial, Address(ip, port));
            && Received(added, serial, Address(ip, port)) == Handed(d)
            && SerialOf(learned, d) == Some(serial) && Lookup(learned, serial) == Some(d)
  {
  }

  /** A known charger that moves is followed unless its device was cut: whatever address its frames come from, they
      reach its device, which the index then holds under the new address and no longer under the old one. */
  lemma MovedIsFollowed<D>(r: Router<D>, d: D, serial: string, address: Address)
    requires Consistent(r) && d in r.registered && SerialOf(r, d) == Some(serial)
    ensures d !in r.cut ==> Received(r, serial, address) == Handed(d)
    ensures var before, after := IdentityOf(r, d).hostIp, Receive(r, serial, address);
            address.ip != before ==>
              && (Received(r, serial, address) == Handed(d) <==> d !in r.cut)
              && (d !in r.cut ==>
                    && address.ip in after.byIp && after.byIp[address.ip] == d
                    && (before in after.byIp ==> after.byIp[before] != d))
  {
    assert FoundUnlessCut(r, d);
  }

  lemma {:induction false} AllowedPrefix<D>(r: Router<D>, ops: seq<Op<D>>, i: nat)
    requires AllowedRun(r, ops) && i <= |ops|
    ensures AllowedRun(r, ops[..i])
    decreases |ops|
  {
    if i < |ops| {
      AllowedPrefix(r, ops[..|ops| - 1], i);
      assert ops[..|ops| - 1][..i] == ops[..i];
    } else {
      assert ops[..i] == ops;
    }
  }

  lemma ReportedIsStranger<D>(reports: bool, ops: seq<Op<D>>, i: nat, serial: string)
    requires AllowedRun(Empty<D>(reports), ops) && ReportsAt(Empty(reports), ops, i, serial)
    ensures reports && serial != ZERO_SERIAL
    ensures forall d :: d in Run(Empty<D>(reports), ops[..i]).registered
                        && SerialOf(Run(Empty<D>(reports), ops[..i]), d) == Some(serial)
                        ==> CutIn(Empty<D>(reports), ops[..i], d)
  {
    AllowedPrefix(Empty(reports), ops, i);
    ReportsKept(reports, ops[..i]);
    HandedRight(reports, ops[..i], serial, ops[i].address);
  }
}
